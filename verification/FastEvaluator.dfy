/** The FAST verdict: slice the trace at the lifecycle boundary, run the module oracles on the slice,
    and compose seventeen checks in chain order.

    The module oracles and their adapters are not part of this model: they are arbitrary total
    functions (`Oracles`) of the rows they are handed, so every result below holds for all oracles.
 */
module FastEvaluator {
  import opened Options
  import opened RealMath
  import opened TraceRow
  import opened StableSort
  import opened FastBoundary
  import opened BoundarySlicing
  import opened ArtifactConsistency

  datatype Scenario = Scenario(
    compiledRule: string, ownRole: string, classification: string, truthLockOk: bool,
    minTransit: real, fastTerminal: string, clearDwell: real,
    targetAction: string, targetRequired: real, targetCpa: real, targetDeadline: real,
    targetInitialHeading: Cell, dcpa: Cell, cpaFloor: Cell)

  datatype OracleResult = OracleResult(passed: bool, failedChecks: seq<string>)

  datatype Oracles = Oracles(
    m1: seq<Row> -> OracleResult,
    m2: (Scenario, seq<Row>, seq<Row>) -> OracleResult,
    m4: (seq<Row>, seq<Row>) -> OracleResult,
    m5: seq<Row> -> OracleResult,
    m6: (Scenario, seq<Row>) -> OracleResult,
    l4: (seq<Row>, Boundary) -> OracleResult,
    m7: seq<Row> -> OracleResult,
    round3: real -> real)

  datatype ModuleResults = ModuleResults(
    m1: bool, m2: bool, m4: bool, m5: bool, m6: bool, l4Gnc: bool, m7: bool, m8: bool)

  predicate IsTarget(scenario: Scenario) {
    scenario.fastTerminal == ENCOUNTER_CLEAR_WITH_OWN_HOLD
  }

  /** `_boundary_for`: a scenario without a terminal asks for own recovery. */
  function BoundaryFor(rows: seq<Row>, scenario: Scenario): Result<Boundary> {
    Detect(rows, scenario.minTransit,
           if scenario.fastTerminal == "" then OWN_RECOVERY_ENTRY else scenario.fastTerminal,
           scenario.clearDwell)
  }

  /** `None` is the infinite horizon. */
  predicate Within(r: Row, limit: Option<real>) {
    limit.None? || r.t <= limit.value
  }

  // ----- Own ship -----

  function IsOwnShip(r: Row): bool {
    r.topic == OwnShipState
  }

  function OwnShipRows(rows: seq<Row>): seq<Row> {
    Sort(Time, Filter(IsOwnShip, rows))
  }

  // ----- M6 action demand -----

  datatype Demand = Demand(t: real, direction: string, degrees: real)

  predicate IsTurnDirection(d: string) {
    d == "STARBOARD" || d == "PORT"
  }

  function RuleDemands(row: Row, rules: seq<ActiveRule>): seq<Demand> {
    if rules == [] then []
    else
      var d := ToFloat(rules[0].minAlteration);
      (if rules[0].isMapping && d.Some? && d.value > 0.0 && IsTurnDirection(row.preferredDirection)
       then [Demand(row.t, row.preferredDirection, d.value)] else [])
      + RuleDemands(row, rules[1..])
  }

  function Demands(rows: seq<Row>, limit: Option<real>): seq<Demand> {
    if rows == [] then []
    else if IsConstraint(rows[0]) && Within(rows[0], limit)
    then RuleDemands(rows[0], rows[0].activeRules) + Demands(rows[1..], limit)
    else Demands(rows[1..], limit)
  }

  datatype Contract =
    | NoDemand
    | Inconsistent(onset: real)
    | Turning(onset: real, direction: string, required: real)

  /** The contract a set of demand samples amounts to: earliest onset, one direction, largest demand. */
  ghost predicate IsContractOf(c: Contract, samples: seq<Demand>) {
    match c
    case NoDemand => samples == []
    case Inconsistent(onset) =>
      && (exists s :: s in samples && s.t == onset)
      && (forall s :: s in samples ==> onset <= s.t)
      && (exists a, b :: a in samples && b in samples && a.direction != b.direction)
    case Turning(onset, direction, required) =>
      && (exists s :: s in samples && s.t == onset)
      && (forall s :: s in samples ==> onset <= s.t && s.direction == direction && s.degrees <= required)
      && (exists s :: s in samples && s.degrees == required)
  }

  function ContractOf(samples: seq<Demand>): (c: Contract)
    ensures IsContractOf(c, samples)
  {
    if samples == [] then NoDemand
    else
      var s, rest := samples[0], ContractOf(samples[1..]);
      assert forall x :: x in samples <==> x == s || x in samples[1..];
      match rest
      case NoDemand => Turning(s.t, s.direction, s.degrees)
      case Inconsistent(onset) => Inconsistent(if s.t < onset then s.t else onset)
      case Turning(onset, direction, required) =>
        var first := if s.t < onset then s.t else onset;
        if s.direction != direction then
          assert exists a :: a in samples[1..] && a.direction == direction;
          Inconsistent(first)
        else Turning(first, direction, if s.degrees > required then s.degrees else required)
  }

  /** `IsContractOf` leaves no choice. */
  lemma ContractIsUnique(c: Contract, samples: seq<Demand>)
    requires IsContractOf(c, samples)
    ensures c == ContractOf(samples)
  {
  }

  /** The inner loop of `active_action_contract`, for one M6 row. */
  method CollectDemands(row: Row) returns (samples: seq<Demand>)
    ensures samples == RuleDemands(row, row.activeRules)
  {
    samples := [];
    var k := 0;
    while k < |row.activeRules|
      invariant k <= |row.activeRules|
      invariant samples + RuleDemands(row, row.activeRules[k..]) == RuleDemands(row, row.activeRules)
    {
      var rule := row.activeRules[k];
      k := k + 1;
      assert row.activeRules[k - 1..][1..] == row.activeRules[k..];
      if !rule.isMapping {
        continue;
      }
      var demand := ToFloat(rule.minAlteration);
      if demand.None? || demand.value <= 0.0 {
        continue;
      }
      if row.preferredDirection != "STARBOARD" && row.preferredDirection != "PORT" {
        continue;
      }
      samples := samples + [Demand(row.t, row.preferredDirection, demand.value)];
    }
  }

  /** `active_action_contract` */
  method ActiveActionContract(rows: seq<Row>, limit: Option<real>) returns (c: Contract)
    ensures c == ContractOf(Demands(rows, limit))
  {
    var samples: seq<Demand> := [];
    var i := 0;
    while i < |rows|
      invariant i <= |rows|
      invariant samples + Demands(rows[i..], limit) == Demands(rows, limit)
    {
      var row := rows[i];
      i := i + 1;
      assert rows[i - 1..][1..] == rows[i..];
      if row.topic != ColregsConstraint || !Within(row, limit) {
        continue;
      }
      var more := CollectDemands(row);
      assert samples + (more + Demands(rows[i..], limit)) == samples + more + Demands(rows[i..], limit);
      samples := samples + more;
    }
    assert samples == Demands(rows, limit);
    return ContractOf(samples);
  }

  // ----- Realized alteration -----

  /** Heading at the last sample up to `base`, else that of the earliest sample. */
  function BaseHeading(own: seq<Row>, base: real): Option<real> {
    var pre := Filter(AtMost(Time, base), own);
    var before := if pre == [] then None else ToFloat(pre[|pre| - 1].heading);
    if before.Some? then before else if own == [] then None else ToFloat(own[0].heading)
  }

  function InWindow(onset: real, stop: Option<real>): Row -> bool {
    (r: Row) => onset <= r.t && Within(r, stop)
  }

  /** Turn of one sample in the required direction; a sample without heading counts as none. */
  function SignedTurn(r: Row, base: real, sign: real): real {
    match ToFloat(r.heading)
    case Some(h) => Turn(h, base) * sign
    case None => 0.0
  }

  function LargestTurn(window: seq<Row>, base: real, sign: real): (m: real)
    ensures m >= 0.0
    ensures forall r :: r in window ==> SignedTurn(r, base, sign) <= m
    ensures m == 0.0 || exists r :: r in window && SignedTurn(r, base, sign) == m
  {
    if window == [] then 0.0
    else
      var rest := LargestTurn(window[1..], base, sign);
      assert forall r :: r in window <==> r == window[0] || r in window[1..];
      if SignedTurn(window[0], base, sign) > rest then SignedTurn(window[0], base, sign) else rest
  }

  lemma LargestTurnIs(window: seq<Row>, base: real, sign: real, m: real)
    requires m >= 0.0 && forall r :: r in window ==> SignedTurn(r, base, sign) <= m
    requires m == 0.0 || exists r :: r in window && SignedTurn(r, base, sign) == m
    ensures LargestTurn(window, base, sign) == m
  {
  }

  function SignOf(direction: string): real {
    if direction == "STARBOARD" then 1.0 else -1.0
  }

  /** `_realized_alteration_deg` before rounding. */
  function RealizedTurn(rows: seq<Row>, base: real, onset: real, stop: Option<real>, direction: string): (d: real)
    ensures d >= 0.0
  {
    var own := OwnShipRows(rows);
    var h := BaseHeading(own, base);
    if h.None? then 0.0
    else LargestTurn(Filter(InWindow(onset, stop), own), h.value, SignOf(direction))
  }

  method ComputeLargestTurn(window: seq<Row>, base: real, sign: real) returns (d: real)
    ensures d == LargestTurn(window, base, sign)
  {
    d := 0.0;
    for i := 0 to |window|
      invariant d >= 0.0
      invariant forall k :: 0 <= k < i ==> SignedTurn(window[k], base, sign) <= d
      invariant d == 0.0 || exists k :: 0 <= k < i && SignedTurn(window[k], base, sign) == d
    {
      var heading := ToFloat(window[i].heading);
      if heading.None? {
        continue;
      }
      var signed := Turn(heading.value, base) * sign;
      assert signed == SignedTurn(window[i], base, sign);
      if signed > d {
        d := signed;
      }
    }
    forall r | r in window ensures SignedTurn(r, base, sign) <= d {
      var k :| 0 <= k < |window| && window[k] == r;
    }
    LargestTurnIs(window, base, sign, d);
  }

  method ComputeRealizedTurn(rows: seq<Row>, base: real, onset: real, stop: Option<real>, direction: string)
    returns (d: real)
    ensures d == RealizedTurn(rows, base, onset, stop, direction)
  {
    var own := OwnShipRows(rows);
    var h := BaseHeading(own, base);
    if h.None? {
      return 0.0;
    }
    d := ComputeLargestTurn(Filter(InWindow(onset, stop), own), h.value, SignOf(direction));
  }

  // ----- Target actor -----

  datatype TargetAction = TargetAction(required: real, realized: real, effective: Option<real>, passed: bool)

  predicate IsWorldState(r: Row, limit: Option<real>) {
    r.topic == WorldState && Within(r, limit)
  }

  /** A world-state sample in which the target has turned far enough and the CPA is restored. */
  predicate Resolves(r: Row, scenario: Scenario, initial: real) {
    && ToFloat(r.targetHeading).Some?
    && Turn(ToFloat(r.targetHeading).value, initial) + 0.000001 >= scenario.targetRequired
    && ToFloat(r.primaryCpa).Some?
    && ToFloat(r.primaryCpa).value + 0.000001 >= scenario.targetCpa
  }

  /** Time of the first resolving sample, in file order (the loop does not sort). */
  function FirstResolution(rows: seq<Row>, scenario: Scenario, initial: real, limit: Option<real>): Option<real> {
    if rows == [] then None
    else if IsWorldState(rows[0], limit) && Resolves(rows[0], scenario, initial) then Some(rows[0].t)
    else FirstResolution(rows[1..], scenario, initial, limit)
  }

  function TargetTurn(rows: seq<Row>, initial: real, limit: Option<real>): real {
    if rows == [] then 0.0
    else
      var rest := TargetTurn(rows[1..], initial, limit);
      if IsWorldState(rows[0], limit) && ToFloat(rows[0].targetHeading).Some?
         && Turn(ToFloat(rows[0].targetHeading).value, initial) > rest
      then Turn(ToFloat(rows[0].targetHeading).value, initial) else rest
  }

  function TargetGivesWay(rows: seq<Row>, scenario: Scenario, limit: Option<real>, round3: real -> real): TargetAction {
    var initial := ToFloat(scenario.targetInitialHeading);
    if initial.None? || scenario.targetRequired <= 0.0 || scenario.targetCpa <= 0.0
    then TargetAction(scenario.targetRequired, 0.0, None, false)
    else
      var effective := FirstResolution(rows, scenario, initial.value, limit);
      TargetAction(scenario.targetRequired, round3(TargetTurn(rows, initial.value, limit)), effective,
                   effective.Some? && effective.value <= scenario.targetDeadline + 0.000001)
  }

  lemma {:induction false} TargetTurnAppend(rows: seq<Row>, r: Row, initial: real, limit: Option<real>)
    ensures TargetTurn(rows + [r], initial, limit)
         == Max(TargetTurn(rows, initial, limit), TargetTurn([r], initial, limit))
  {
    if rows == [] {
      assert rows + [r] == [r];
    } else {
      assert (rows + [r])[1..] == rows[1..] + [r];
      TargetTurnAppend(rows[1..], r, initial, limit);
    }
  }

  method TargetActionRealized(rows: seq<Row>, scenario: Scenario, limit: Option<real>, round3: real -> real)
    returns (a: TargetAction)
    ensures a == TargetGivesWay(rows, scenario, limit, round3)
  {
    var initial := ToFloat(scenario.targetInitialHeading);
    if initial.None? || scenario.targetRequired <= 0.0 || scenario.targetCpa <= 0.0 {
      return TargetAction(scenario.targetRequired, 0.0, None, false);
    }
    var realized := 0.0;
    var effective: Option<real> := None;
    var i := 0;
    while i < |rows|
      invariant i <= |rows|
      invariant realized == TargetTurn(rows[..i], initial.value, limit)
      invariant (if effective.Some? then effective else FirstResolution(rows[i..], scenario, initial.value, limit))
             == FirstResolution(rows, scenario, initial.value, limit)
    {
      var row := rows[i];
      assert rows[..i + 1] == rows[..i] + [row];
      TargetTurnAppend(rows[..i], row, initial.value, limit);
      i := i + 1;
      assert rows[i - 1..][1..] == rows[i..];
      if row.topic != WorldState || !Within(row, limit) {
        continue;
      }
      var heading := ToFloat(row.targetHeading);
      if heading.None? {
        continue;
      }
      var starboard := Turn(heading.value, initial.value);
      if starboard > realized {
        realized := starboard;
      }
      var cpa := ToFloat(row.primaryCpa);
      if effective.None? && starboard + 0.000001 >= scenario.targetRequired
         && cpa.Some? && cpa.value + 0.000001 >= scenario.targetCpa {
        effective := Some(row.t);
      }
    }
    assert rows[..i] == rows;
    return TargetAction(scenario.targetRequired, round3(realized), effective,
                        effective.Some? && effective.value <= scenario.targetDeadline + 0.000001);
  }

  function TargetDeviations(rows: seq<Row>, initial: real, limit: Option<real>): seq<real> {
    if rows == [] then []
    else (if IsWorldState(rows[0], limit) && ToFloat(rows[0].targetHeading).Some?
          then [Abs(Turn(ToFloat(rows[0].targetHeading).value, initial))] else [])
         + TargetDeviations(rows[1..], initial, limit)
  }

  function Greatest(xs: seq<real>): real
    requires xs != []
  {
    if |xs| == 1 then xs[0] else Max(xs[0], Greatest(xs[1..]))
  }

  function TargetHolds(rows: seq<Row>, scenario: Scenario, limit: Option<real>, round3: real -> real): TargetAction {
    var initial := ToFloat(scenario.targetInitialHeading);
    if initial.None? then TargetAction(0.0, 0.0, None, false)
    else
      var samples := TargetDeviations(rows, initial.value, limit);
      var worst := if samples == [] then 0.0 else Greatest(samples);
      TargetAction(0.0, round3(worst), None, samples != [] && worst <= 1.0)
  }

  function TargetContract(rows: seq<Row>, scenario: Scenario, limit: Option<real>, round3: real -> real): TargetAction {
    if scenario.targetAction == "" || scenario.targetAction == "PASSIVE" then TargetAction(0.0, 0.0, None, true)
    else if scenario.targetAction == "GIVE_WAY_STARBOARD" then TargetGivesWay(rows, scenario, limit, round3)
    else if scenario.targetAction != "HOLD" then TargetAction(0.0, 0.0, None, false)
    else TargetHolds(rows, scenario, limit, round3)
  }

  // ----- Holds and takeovers -----

  const HOLD_LIMIT_DEG := 10.0

  predicate HeadingsWithin(rows: seq<Row>, base: real, limit: real) {
    forall r :: r in rows && ToFloat(r.heading).Some? ==> Abs(Turn(ToFloat(r.heading).value, base)) <= limit
  }

  /** `_stand_on_hold_before_t_act` */
  predicate StandOnHolds(rows: seq<Row>, onset: Option<real>, ownRole: string) {
    if ownRole != "STAND_ON" || onset.None? then true
    else
      var pre := Filter(AtMost(Time, onset.value), OwnShipRows(rows));
      if pre == [] || ToFloat(pre[0].heading).None? then true
      else HeadingsWithin(pre, ToFloat(pre[0].heading).value, HOLD_LIMIT_DEG)
  }

  function HasHeading(r: Row): bool {
    ToFloat(r.heading).Some?
  }

  function OwnShipWithin(limit: Option<real>): Row -> bool {
    (r: Row) => IsOwnShip(r) && Within(r, limit)
  }

  /** `_own_hold_through_stop` */
  predicate OwnHolds(rows: seq<Row>, limit: Option<real>) {
    var samples := Filter(HasHeading, Sort(Time, Filter(OwnShipWithin(limit), rows)));
    samples == [] ||
    (assert samples[0] in samples; HeadingsWithin(samples, ToFloat(samples[0].heading).value, HOLD_LIMIT_DEG))
  }

  function ToIntOr0(c: Cell): Option<int> {
    if c.Absent? then Some(0) else ToInt(c)
  }

  /** A committed branch with waypoints; if either cell is unreadable both count as zero. */
  predicate IsTacticalRoute(r: Row) {
    var branch, count := ToIntOr0(r.commitBranch), ToIntOr0(r.waypointCount);
    r.topic == AvoidancePlan && branch.Some? && count.Some? && 1 <= branch.value <= 3 && count.value > 0
  }

  predicate NoTacticalRoute(rows: seq<Row>, limit: Option<real>) {
    forall r :: r in rows && Within(r, limit) ==> !IsTacticalRoute(r)
  }

  predicate NoGncTakeover(rows: seq<Row>, limit: Option<real>) {
    forall r :: r in rows && Within(r, limit) && r.topic == ExecutionStatus ==> !(r.accepted && "m5-" <= r.planId)
  }

  // ----- The verdict -----

  datatype Check =
    | ScenarioTruthLocked
    | TransitPrefixObserved
    | AvoidanceObserved
    | M2GeometryValid
    | M6RuleRoleDirectionValid
    | StandOnHoldBeforeTAct
    | TargetActorContractRealized
    | DynamicActionRealized
    | M4LifecycleValid
    | M5ExecutableRouteValid
    | GncHandoffIdentityValid
    | ScenarioCpaAcceptanceMet
    | M7CheckerClosed
    | M1MrmAuthorityValid
    | FirstRecoveryBoundaryObserved
    | GArtConsistent
    | GArtComplete

  /** The chain order used to attribute the first failure. */
  const CHAIN: seq<Check> := [
    ScenarioTruthLocked, TransitPrefixObserved, AvoidanceObserved, M2GeometryValid,
    M6RuleRoleDirectionValid, StandOnHoldBeforeTAct, TargetActorContractRealized, DynamicActionRealized,
    M4LifecycleValid, M5ExecutableRouteValid, GncHandoffIdentityValid, ScenarioCpaAcceptanceMet,
    M7CheckerClosed, M1MrmAuthorityValid, FirstRecoveryBoundaryObserved, GArtConsistent, GArtComplete]

  function StageOf(c: Check): string {
    match c
    case ScenarioTruthLocked => "SCENARIO"
    case M2GeometryValid => "M2"
    case M6RuleRoleDirectionValid | StandOnHoldBeforeTAct | DynamicActionRealized => "M6"
    case TargetActorContractRealized => "INTEGRATION_HANDOFF"
    case M5ExecutableRouteValid => "M5"
    case GncHandoffIdentityValid => "L4_GNC"
    case ScenarioCpaAcceptanceMet | GArtConsistent | GArtComplete => "M8_EVALUATOR"
    case M7CheckerClosed => "M7"
    case M1MrmAuthorityValid => "M1"
    case TransitPrefixObserved | AvoidanceObserved | M4LifecycleValid | FirstRecoveryBoundaryObserved => "M4"
  }

  datatype Failure = BoundaryFailure(reason: Reason) | Named(code: string)

  function BoundaryCode(b: Boundary, fallback: Reason): Failure {
    BoundaryFailure(if b.failureCode.Some? then b.failureCode.value else fallback)
  }

  function FailureOf(c: Check, b: Boundary, contract: Contract, scenario: Scenario): Failure {
    match c
    case FirstRecoveryBoundaryObserved => BoundaryCode(b, RecoveryBoundaryNotReached)
    case TransitPrefixObserved => BoundaryCode(b, TransitPrefixTooShort)
    case AvoidanceObserved => BoundaryCode(b, AvoidanceNotReached)
    case ScenarioTruthLocked => Named("SCENARIO_TRUTH_NOT_LOCKED")
    case DynamicActionRealized =>
      if IsTarget(scenario) then Named("TARGET_ACTION_NOT_REALIZED")
      else if contract.Inconsistent? then Named("M6_DIRECTION_INCONSISTENT")
      else Named("M6_ACTION_NOT_REALIZED")
    case TargetActorContractRealized =>
      if scenario.targetAction == "HOLD" then Named("TARGET_HOLD_VIOLATED") else Named("TARGET_ACTION_NOT_REALIZED")
    case StandOnHoldBeforeTAct => Named("STAND_ON_EXCURSION_BEFORE_T_ACT")
    case M2GeometryValid => Named("M2_GEOMETRY_INVALID")
    case M6RuleRoleDirectionValid => Named("M6_RULE_ROLE_DIRECTION_INVALID")
    case M4LifecycleValid => Named("M4_LIFECYCLE_INVALID")
    case M5ExecutableRouteValid => Named("M5_EXECUTABLE_ROUTE_INVALID")
    case GncHandoffIdentityValid => Named("GNC_HANDOFF_IDENTITY_INVALID")
    case ScenarioCpaAcceptanceMet => Named("SCENARIO_CPA_ACCEPTANCE_NOT_MET")
    case M7CheckerClosed => Named("M7_CHECKER_NOT_CLOSED")
    case M1MrmAuthorityValid => Named("M1_MRM_AUTHORITY_INVALID")
    case GArtConsistent | GArtComplete => Named("G_ART_INCONSISTENT")
  }

  /** What `evaluate_fast` has computed before it walks the chain. */
  datatype Evidence = Evidence(
    boundary: Boundary, contract: Contract, required: real, realized: real,
    targetOk: bool, dynamicOk: bool, standOnOk: bool, cpaOk: bool, noRoute: bool, noTakeover: bool)

  predicate Holds(c: Check, e: Evidence, scenario: Scenario, m: ModuleResults) {
    match c
    case ScenarioTruthLocked =>
      scenario.compiledRule != "" && scenario.ownRole != "" && scenario.classification != "" && scenario.truthLockOk
    case TransitPrefixObserved => e.boundary.TransitDuration() >= scenario.minTransit
    case AvoidanceObserved => IsTarget(scenario) || e.boundary.avoidanceStart.Some?
    case M2GeometryValid => m.m2
    case M6RuleRoleDirectionValid => m.m6
    case StandOnHoldBeforeTAct => e.standOnOk
    case TargetActorContractRealized => e.targetOk
    case DynamicActionRealized => e.dynamicOk
    case M4LifecycleValid => if IsTarget(scenario) then e.boundary.ready else m.m4
    case M5ExecutableRouteValid => if IsTarget(scenario) then e.noRoute else m.m5
    case GncHandoffIdentityValid => if IsTarget(scenario) then e.noTakeover else m.l4Gnc
    case ScenarioCpaAcceptanceMet => e.cpaOk
    case M7CheckerClosed => m.m7
    case M1MrmAuthorityValid => m.m1
    case FirstRecoveryBoundaryObserved => e.boundary.ready
    case GArtConsistent | GArtComplete => m.m8
  }

  /** `boundary.stop_t`, else the avoidance onset, else the whole horizon. */
  function StopLimit(b: Boundary): Option<real> {
    if b.stop.Some? then b.stop else b.avoidanceStart
  }

  /** `recovery_start_t or stop_t`: a recovery at exactly 0.0 reads as missing. */
  function RecoveryStop(b: Boundary): Option<real> {
    if b.recoveryStart.Some? && b.recoveryStart.value != 0.0 then b.recoveryStart else StopLimit(b)
  }

  function CpaAccepted(scenario: Scenario): bool {
    var dcpa, floor := ToFloat(scenario.dcpa), ToFloat(scenario.cpaFloor);
    dcpa.Some? && floor.Some? && dcpa.value >= floor.value
  }

  function Gather(rows: seq<Row>, scenario: Scenario, b: Boundary, round3: real -> real): Evidence {
    var limit := StopLimit(b);
    var target := TargetContract(rows, scenario, limit, round3);
    var contract := if IsTarget(scenario) then NoDemand else ContractOf(Demands(rows, limit));
    var realized :=
      if IsTarget(scenario) then target.realized
      else match contract
        case Turning(onset, direction, _) =>
          round3(RealizedTurn(rows, if b.avoidanceStart.Some? then b.avoidanceStart.value else onset,
                              onset, RecoveryStop(b), direction))
        case _ => 0.0;
    var required := if IsTarget(scenario) then target.required
                    else if contract.Turning? then contract.required else 0.0;
    Evidence(
      b, contract, required, realized, target.passed,
      if IsTarget(scenario) then target.passed
      else match contract
        case NoDemand => true
        case Inconsistent(_) => false
        case Turning(_, _, _) => realized + 0.000001 >= required,
      if IsTarget(scenario) then OwnHolds(rows, limit)
      else StandOnHolds(rows, if contract.Turning? then Some(contract.onset) else None, scenario.ownRole),
      CpaAccepted(scenario), NoTacticalRoute(rows, limit), NoGncTakeover(rows, limit))
  }

  function HoldsIn(e: Evidence, scenario: Scenario, m: ModuleResults): Check -> bool {
    (c: Check) => Holds(c, e, scenario, m)
  }

  /** The first check from position `k` on that does not hold. */
  function FirstFailed(chain: seq<Check>, k: nat, holds: Check -> bool): Option<Check>
    requires k <= |chain|
    decreases |chain| - k
  {
    if k == |chain| then None
    else if !holds(chain[k]) then Some(chain[k])
    else FirstFailed(chain, k + 1, holds)
  }

  datatype Verdict = Verdict(
    passed: bool, firstFailure: Option<Failure>, firstBrokenStage: string, evidence: Evidence,
    modules: ModuleResults)

  function Compose(e: Evidence, scenario: Scenario, m: ModuleResults): Verdict {
    match FirstFailed(CHAIN, 0, HoldsIn(e, scenario, m))
    case Some(c) => Verdict(false, Some(FailureOf(c, e.boundary, e.contract, scenario)), StageOf(c), e, m)
    case None =>
      if !e.boundary.ready
      then Verdict(false, Some(BoundaryCode(e.boundary, RecoveryBoundaryNotReached)), "M4", e, m)
      else Verdict(true, None, "", e, m)
  }

  /** `evaluate_fast` */
  function EvaluateFast(rows: seq<Row>, scenario: Scenario, m: ModuleResults, round3: real -> real): Result<Verdict> {
    match BoundaryFor(rows, scenario)
    case Err(msg) => Err(msg)
    case Ok(b) => Ok(Compose(Gather(rows, scenario, b, round3), scenario, m))
  }

  /** The loop of `evaluate_fast` over the chain. */
  method AttributeFailure(e: Evidence, scenario: Scenario, m: ModuleResults) returns (v: Verdict)
    ensures v == Compose(e, scenario, m)
  {
    var k := 0;
    while k < |CHAIN|
      invariant k <= |CHAIN|
      invariant FirstFailed(CHAIN, k, HoldsIn(e, scenario, m)) == FirstFailed(CHAIN, 0, HoldsIn(e, scenario, m))
    {
      if !Holds(CHAIN[k], e, scenario, m) {
        return Verdict(false, Some(FailureOf(CHAIN[k], e.boundary, e.contract, scenario)), StageOf(CHAIN[k]), e, m);
      }
      k := k + 1;
    }
    if !e.boundary.ready {
      return Verdict(false, Some(BoundaryCode(e.boundary, RecoveryBoundaryNotReached)), "M4", e, m);
    }
    return Verdict(true, None, "", e, m);
  }

  // ----- The public entry point -----

  function IsWorldRow(r: Row): bool {
    r.topic == WorldState
  }

  function RunOracles(slice: seq<Row>, b: Boundary, scenario: Scenario, report: Report, o: Oracles): ModuleResults {
    var m6Rows := Filter(IsConstraint, slice);
    ModuleResults(
      o.m1(slice).passed,
      o.m2(scenario, Filter(IsWorldRow, slice), Filter(IsOwnShip, slice)).passed,
      if IsTarget(scenario) then b.ready else o.m4(slice, m6Rows).passed,
      if IsTarget(scenario) then NoTacticalRoute(slice, b.stop) else o.m5(slice).passed,
      o.m6(scenario, slice).passed,
      if IsTarget(scenario) then NoGncTakeover(slice, b.stop) else o.l4(slice, b).passed,
      o.m7(slice).passed,
      AuditOf(slice, report).Passes())
  }

  /** The report's minimum CPA replaces the scenario geometry when it is readable. */
  function WithReportCpa(scenario: Scenario, report: Report): Scenario {
    var cpa := ToFloat(report.minCpa);
    if cpa.Some? then scenario.(dcpa := Decimal(cpa.value)) else scenario
  }

  function FastSlice(rows: seq<Row>, b: Boundary): seq<Row> {
    if b.stop.Some? then Slice(rows, b.stop.value) else rows
  }

  /** `evaluate_fast_trace` */
  function EvaluateFastTrace(rows: seq<Row>, scenario: Scenario, report: Report, o: Oracles): Result<Verdict> {
    match BoundaryFor(rows, scenario)
    case Err(msg) => Err(msg)
    case Ok(b) =>
      var slice := FastSlice(rows, b);
      EvaluateFast(slice, WithReportCpa(scenario, report), RunOracles(slice, b, scenario, report, o), o.round3)
  }
}
