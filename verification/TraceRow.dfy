/** One row of a raw trace, and the two ways in which the tools read a number from a cell. */
module TraceRow {
  import opened Options

  /** What a JSON cell can hold.  `WholeText` and `DecimalText` are strings that `float()`
      accepts; `int()` accepts only the first kind. */
  datatype Cell =
    | Absent
    | Null
    | Flag(b: bool)
    | Whole(n: int)
    | Decimal(x: real)
    | WholeText(n: int)
    | DecimalText(x: real)
    | Unreadable

  /** `int(x)` on a float drops the fraction, towards zero. */
  function Truncate(x: real): int {
    if x >= 0.0 then x.Floor else -((-x).Floor)
  }

  /** `int(cell)`; `None` stands for the TypeError or ValueError. */
  function ToInt(c: Cell): Option<int> {
    match c
    case Flag(b) => Some(if b then 1 else 0)
    case Whole(n) => Some(n)
    case Decimal(x) => Some(Truncate(x))
    case WholeText(n) => Some(n)
    case Absent | Null | DecimalText(_) | Unreadable => None
  }

  /** `_safe_float` and `_float`: booleans are rejected. */
  function ToFloat(c: Cell): Option<real> {
    match c
    case Whole(n) => Some(n as real)
    case Decimal(x) => Some(x)
    case WholeText(n) => Some(n as real)
    case DecimalText(x) => Some(x)
    case Absent | Null | Flag(_) | Unreadable => None
  }

  /** The topics the tools look for: `/l3/m4/behavior_plan`, `/l3/m6/colregs_constraint`,
      `/sil/own_ship_state`, `/l3/m2/world_state`, `/l3/m5/avoidance_plan`,
      `/l3/gnc/execution_status`, `/gnc/active_route`, `/sil/scoring`, and everything else. */
  datatype Topic =
    | BehaviorPlan
    | ColregsConstraint
    | OwnShipState
    | WorldState
    | AvoidancePlan
    | ExecutionStatus
    | ActiveRoute
    | Scoring
    | OtherTopic(name: string)

  /** An entry of `active_rules`: `isMapping` is false for anything but a dictionary. */
  datatype ActiveRule = ActiveRule(isMapping: bool, minAlteration: Cell)

  /** What only the route handoff reads.  `arrays` are the lengths of latitude, longitude, command speed and
      segment source, `None` for anything but a list; `counts` are the three waypoint counters besides
      `n_waypoints`; `points` is the length of the point list. */
  datatype RouteCells = RouteCells(
    arrays: seq<Option<nat>>, rationale: string, reason: string, preflight: string, preflightFeasible: bool,
    routeId: string, activeRouteId: string, executionState: string, counts: seq<Cell>, points: Option<nat>)

  /** `t` is the canonical event time; `canonical` and `recordId` belong to the strict auditor. */
  datatype Row = Row(
    t: real,
    topic: Topic,
    behavior: Cell,
    conflictDetected: bool,
    activeRules: seq<ActiveRule>,
    encounterState: Cell,
    preferredDirection: string,
    heading: Cell,
    targetHeading: Cell,
    primaryCpa: Cell,
    commitBranch: Cell,
    waypointCount: Cell,
    accepted: bool,
    planId: string,
    route: RouteCells,
    scoringCpa: Cell,
    canonical: real,
    recordId: string)

  /** A row of M4 with nothing but a time and a label. */
  function PlanRow(t: real, behavior: Cell): Row {
    Row(t, BehaviorPlan, behavior, false, [], Absent, "", Absent, Absent, Absent, Absent, Absent,
        false, "", RouteCells([], "", "", "", false, "", "", "", [], None), Absent, t, "")
  }

  /** `event_time_s`. */
  function Time(r: Row): real {
    r.t
  }

  function IsBehaviorPlan(r: Row): bool {
    r.topic == BehaviorPlan
  }

  function IsConstraint(r: Row): bool {
    r.topic == ColregsConstraint
  }

  /** `_behavior_of`: a missing or unreadable label is -1. */
  function BehaviorOf(r: Row): int {
    match ToInt(r.behavior)
    case Some(n) => n
    case None => -1
  }

  /** `_m6_encounter_active`, which both auditors write out identically. */
  predicate EncounterActive(r: Row) {
    var state := match ToInt(r.encounterState) case Some(n) => n case None => 0;
    r.conflictDetected || r.activeRules != [] || state == 1 || state == 2
  }
}
