/** The FAST lifecycle boundary detector: TRANSIT prefix, AVOIDANCE, first RECOVERY.

    `FindOwnRecoveryBoundary` and `FindTargetResolutionBoundary` are the two loops.  Each is
    proved equal to a scan (`OwnBoundary`, `TargetBoundary`), and each scan to a reading of the
    trace that mentions no loop state: `OwnLifecycle.Outcome` and `TargetLifecycle.TargetOutcome`.
 */
module FastBoundary {
  import opened Options
  import opened TraceRow
  import opened StableSort
  import opened EventScan

  const TRANSIT := 0
  const AVOIDANCE := 1
  const DP_HOLD := 2
  const BERTH := 3
  const MRC := {4, 5, 6}
  const RECOVERY := 7

  const OWN_RECOVERY_ENTRY := "OWN_RECOVERY_ENTRY"
  const ENCOUNTER_CLEAR_WITH_OWN_HOLD := "ENCOUNTER_CLEAR_WITH_OWN_HOLD"

  datatype Reason =
    | FirstM4Recovery
    | TransitNotObserved
    | TransitPrefixTooShort
    | NonColregsBehaviorBeforeAvoidance
    | NonColregsBehaviorInterruptedAvoidance
    | AvoidanceNotReached
    | MrcBeforeRecovery
    | AvoidanceAbortedBeforeRecovery
    | RecoveryBoundaryNotReached
    | EncounterClearWithOwnHold
    | EncounterClearNotReached
    | OwnTacticalTakeoverForTargetResolution

  /** The reasons the detector's documentation calls terminal. */
  const TERMINAL_REASONS: set<Reason> := {
    FirstM4Recovery, TransitNotObserved, TransitPrefixTooShort,
    NonColregsBehaviorBeforeAvoidance, NonColregsBehaviorInterruptedAvoidance,
    MrcBeforeRecovery, AvoidanceAbortedBeforeRecovery,
    OwnTacticalTakeoverForTargetResolution}

  datatype Boundary = Boundary(
    ready: bool,
    transitStart: Option<real>,
    avoidanceStart: Option<real>,
    recoveryStart: Option<real>,
    stop: Option<real>,
    stopReason: Option<Reason>,
    failureCode: Option<Reason>)
  {
    predicate Terminal() {
      stop.Some?
    }

    function TransitDuration(): real {
      if stopReason == Some(EncounterClearWithOwnHold) && transitStart.Some? && recoveryStart.Some?
      then recoveryStart.value - transitStart.value
      else if transitStart.None? || avoidanceStart.None? then 0.0
      else avoidanceStart.value - transitStart.value
    }
  }

  /** A terminal RED: `code` is both the stop reason and the failure code. */
  function Red(transitStart: Option<real>, avoidanceStart: Option<real>, recoveryStart: Option<real>,
               stop: real, code: Reason): Boundary
  {
    Boundary(false, transitStart, avoidanceStart, recoveryStart, Some(stop), Some(code), Some(code))
  }

  /** The horizon ran out: no stop sample. */
  function Timeout(transitStart: Option<real>, avoidanceStart: Option<real>,
                   recoveryStart: Option<real>, code: Reason): Boundary
  {
    Boundary(false, transitStart, avoidanceStart, recoveryStart, None, None, Some(code))
  }

  // ----- Own-recovery mode -----

  datatype OwnState = OwnState(
    transitStart: Option<real>, transitLast: Option<real>, avoidanceStart: Option<real>)

  const OWN_INIT := OwnState(None, None, None)

  function OwnStepAt(s: OwnState, r: Row, minTransit: real): Step<OwnState, Boundary> {
    var b := BehaviorOf(r);
    if s.avoidanceStart.None? then
      if b == TRANSIT then
        Go(s.(transitStart := if s.transitStart.None? then Some(r.t) else s.transitStart,
              transitLast := Some(r.t)))
      else if b == AVOIDANCE then
        if s.transitStart.None? || s.transitLast.None? then
          Halt(Red(s.transitStart, None, None, r.t, TransitNotObserved))
        else if s.transitLast.value - s.transitStart.value < minTransit then
          Halt(Red(s.transitStart, Some(r.t), None, r.t, TransitPrefixTooShort))
        else Go(s.(avoidanceStart := Some(r.t)))
      else if b == DP_HOLD || b == BERTH || b in MRC then
        Halt(Red(s.transitStart, None, None, r.t, NonColregsBehaviorBeforeAvoidance))
      else if b == RECOVERY then
        Halt(Red(s.transitStart, None, Some(r.t), r.t, AvoidanceNotReached))
      else Go(s)
    else if b == RECOVERY then
      Halt(Boundary(true, s.transitStart, s.avoidanceStart, Some(r.t), Some(r.t),
                    Some(FirstM4Recovery), None))
    else if b in MRC then
      Halt(Red(s.transitStart, s.avoidanceStart, None, r.t, MrcBeforeRecovery))
    else if b == TRANSIT then
      Halt(Red(s.transitStart, s.avoidanceStart, None, r.t, AvoidanceAbortedBeforeRecovery))
    else if b == DP_HOLD || b == BERTH then
      Halt(Red(s.transitStart, s.avoidanceStart, None, r.t, NonColregsBehaviorInterruptedAvoidance))
    else Go(s)
  }

  function OwnStep(minTransit: real): (OwnState, Row) -> Step<OwnState, Boundary> {
    (s, r) => OwnStepAt(s, r, minTransit)
  }

  function OwnHorizon(s: OwnState): Boundary {
    if s.avoidanceStart.None? then Timeout(s.transitStart, None, None, AvoidanceNotReached)
    else Timeout(s.transitStart, s.avoidanceStart, None, RecoveryBoundaryNotReached)
  }

  function OwnEvents(rows: seq<Row>): seq<Row> {
    Sort(Time, Filter(IsBehaviorPlan, rows))
  }

  function OwnBoundary(rows: seq<Row>, minTransit: real): (b: Boundary)
    ensures b.ready ==> b.stop.Some? && b.recoveryStart.Some?
  {
    RunAtHalt(OwnStep(minTransit), OwnHorizon, OWN_INIT, OwnEvents(rows));
    Run(OwnStep(minTransit), OwnHorizon, OWN_INIT, OwnEvents(rows))
  }

  method FindOwnRecoveryBoundary(rows: seq<Row>, minTransit: real) returns (b: Boundary)
    ensures b == OwnBoundary(rows, minTransit)
  {
    var events := Sort(Time, Filter(IsBehaviorPlan, rows));
    var transitStart, transitLast, avoidanceStart: Option<real> := None, None, None;
    var i := 0;
    while i < |events|
      invariant i <= |events|
      invariant Run(OwnStep(minTransit), OwnHorizon,
                    OwnState(transitStart, transitLast, avoidanceStart), events[i..])
             == OwnBoundary(rows, minTransit)
    {
      var t := Time(events[i]);
      var behavior := BehaviorOf(events[i]);
      i := i + 1;
      assert events[i - 1..][1..] == events[i..];
      if avoidanceStart.None? {
        if behavior == TRANSIT {
          if transitStart.None? {
            transitStart := Some(t);
          }
          transitLast := Some(t);
          continue;
        }
        if behavior == AVOIDANCE {
          if transitStart.None? || transitLast.None? {
            return Boundary(false, transitStart, None, None, Some(t),
                            Some(TransitNotObserved), Some(TransitNotObserved));
          }
          if transitLast.value - transitStart.value < minTransit {
            return Boundary(false, transitStart, Some(t), None, Some(t),
                            Some(TransitPrefixTooShort), Some(TransitPrefixTooShort));
          }
          avoidanceStart := Some(t);
          continue;
        }
        if behavior in {DP_HOLD, BERTH} + MRC {
          return Boundary(false, transitStart, None, None, Some(t),
                          Some(NonColregsBehaviorBeforeAvoidance), Some(NonColregsBehaviorBeforeAvoidance));
        }
        if behavior == RECOVERY {
          return Boundary(false, transitStart, None, Some(t), Some(t),
                          Some(AvoidanceNotReached), Some(AvoidanceNotReached));
        }
        continue;
      }
      if behavior == RECOVERY {
        return Boundary(true, transitStart, avoidanceStart, Some(t), Some(t), Some(FirstM4Recovery), None);
      }
      if behavior in MRC {
        return Boundary(false, transitStart, avoidanceStart, None, Some(t),
                        Some(MrcBeforeRecovery), Some(MrcBeforeRecovery));
      }
      if behavior == TRANSIT {
        return Boundary(false, transitStart, avoidanceStart, None, Some(t),
                        Some(AvoidanceAbortedBeforeRecovery), Some(AvoidanceAbortedBeforeRecovery));
      }
      if behavior in {DP_HOLD, BERTH} {
        return Boundary(false, transitStart, avoidanceStart, None, Some(t),
                        Some(NonColregsBehaviorInterruptedAvoidance), Some(NonColregsBehaviorInterruptedAvoidance));
      }
    }
    if avoidanceStart.None? {
      return Boundary(false, transitStart, None, None, None, None, Some(AvoidanceNotReached));
    }
    return Boundary(false, transitStart, avoidanceStart, None, None, None, Some(RecoveryBoundaryNotReached));
  }

  // ----- Target-resolution mode -----

  /** The M6 half of the state, shared with the artifact auditor. */
  datatype ClearState = ClearState(sawConflict: bool, clearSince: Option<real>)

  const CLEAR_INIT := ClearState(false, None)

  /** The M6 row `r` completes the observation dwell. */
  predicate DwellMet(c: ClearState, r: Row, t: real, dwell: real) {
    !EncounterActive(r) && c.sawConflict && c.clearSince.Some? && t - c.clearSince.value >= dwell
  }

  function ClearNext(c: ClearState, r: Row, t: real): ClearState {
    if EncounterActive(r) then ClearState(true, None)
    else if c.sawConflict && c.clearSince.None? then c.(clearSince := Some(t))
    else c
  }

  datatype TargetState = TargetState(
    transitStart: Option<real>, transitLast: Option<real>, clear: ClearState, dwellReady: bool)

  const TARGET_INIT := TargetState(None, None, CLEAR_INIT, false)

  predicate SpanMet(s: TargetState, minTransit: real) {
    s.transitStart.Some? && s.transitLast.Some? && s.transitLast.value - s.transitStart.value >= minTransit
  }

  function TargetStepAt(s: TargetState, r: Row, minTransit: real, dwell: real): Step<TargetState, Boundary> {
    if IsBehaviorPlan(r) then
      if BehaviorOf(r) == TRANSIT then
        Go(s.(transitStart := if s.transitStart.None? then Some(r.t) else s.transitStart,
              transitLast := Some(r.t)))
      else Halt(Red(s.transitStart, None, None, r.t, OwnTacticalTakeoverForTargetResolution))
    else if !IsConstraint(r) then Go(s)
    else if DwellMet(s.clear, r, r.t, dwell) then
      if SpanMet(s, minTransit) then
        Halt(Boundary(true, s.transitStart, None, s.clear.clearSince, Some(r.t),
                      Some(EncounterClearWithOwnHold), None))
      else Go(s.(dwellReady := true))
    else Go(s.(clear := ClearNext(s.clear, r, r.t),
               dwellReady := s.dwellReady && !EncounterActive(r)))
  }

  function TargetStep(minTransit: real, dwell: real): (TargetState, Row) -> Step<TargetState, Boundary> {
    (s, r) => TargetStepAt(s, r, minTransit, dwell)
  }

  function TargetHorizon(minTransit: real): TargetState -> Boundary {
    (s: TargetState) =>
      Timeout(s.transitStart, None, s.clear.clearSince,
              if s.dwellReady && s.transitStart.None? then TransitNotObserved
              else if s.dwellReady && !SpanMet(s, minTransit) then TransitPrefixTooShort
              else EncounterClearNotReached)
  }

  function IsLifecycleRow(r: Row): bool {
    IsBehaviorPlan(r) || IsConstraint(r)
  }

  function TargetEvents(rows: seq<Row>): seq<Row> {
    Sort(Time, Filter(IsLifecycleRow, rows))
  }

  function TargetBoundary(rows: seq<Row>, minTransit: real, dwell: real): (b: Boundary)
    ensures b.ready ==> b.stop.Some?
  {
    RunAtHalt(TargetStep(minTransit, dwell), TargetHorizon(minTransit), TARGET_INIT, TargetEvents(rows));
    Run(TargetStep(minTransit, dwell), TargetHorizon(minTransit), TARGET_INIT, TargetEvents(rows))
  }

  method FindTargetResolutionBoundary(rows: seq<Row>, minTransit: real, dwell: real) returns (b: Boundary)
    ensures b == TargetBoundary(rows, minTransit, dwell)
  {
    var events := Sort(Time, Filter(IsLifecycleRow, rows));
    var transitStart, transitLast, clearSince: Option<real> := None, None, None;
    var sawConflict, dwellReady := false, false;
    var i := 0;
    while i < |events|
      invariant i <= |events|
      invariant transitStart.Some? == transitLast.Some?
      invariant Run(TargetStep(minTransit, dwell), TargetHorizon(minTransit),
                    TargetState(transitStart, transitLast, ClearState(sawConflict, clearSince), dwellReady),
                    events[i..])
             == TargetBoundary(rows, minTransit, dwell)
    {
      var row := events[i];
      var t := Time(row);
      i := i + 1;
      assert events[i - 1..][1..] == events[i..];
      assert IsLifecycleRow(row);
      if row.topic == BehaviorPlan {
        if BehaviorOf(row) == TRANSIT {
          if transitStart.None? {
            transitStart := Some(t);
          }
          transitLast := Some(t);
          continue;
        }
        return Boundary(false, transitStart, None, None, Some(t),
                        Some(OwnTacticalTakeoverForTargetResolution),
                        Some(OwnTacticalTakeoverForTargetResolution));
      }
      if EncounterActive(row) {
        sawConflict, clearSince, dwellReady := true, None, false;
        continue;
      }
      if !sawConflict {
        continue;
      }
      if clearSince.None? {
        clearSince := Some(t);
        continue;
      }
      if t - clearSince.value >= dwell {
        dwellReady := true;
        if transitStart.Some? && transitLast.Some? && transitLast.value - transitStart.value >= minTransit {
          return Boundary(true, transitStart, None, clearSince, Some(t),
                          Some(EncounterClearWithOwnHold), None);
        }
      }
    }
    var failureCode;
    if dwellReady && transitStart.None? {
      failureCode := TransitNotObserved;
    } else if dwellReady && (transitLast.None? || transitLast.value - transitStart.value < minTransit) {
      failureCode := TransitPrefixTooShort;
    } else {
      failureCode := EncounterClearNotReached;
    }
    return Boundary(false, transitStart, None, clearSince, None, None, Some(failureCode));
  }

  // ----- Entry point -----

  function Detect(rows: seq<Row>, minTransit: real, terminal: string, dwell: real): Result<Boundary> {
    if terminal == ENCOUNTER_CLEAR_WITH_OWN_HOLD then Ok(TargetBoundary(rows, minTransit, dwell))
    else if terminal != OWN_RECOVERY_ENTRY then Err("unsupported FAST terminal: " + terminal)
    else Ok(OwnBoundary(rows, minTransit))
  }

  method FindFastBoundary(rows: seq<Row>, minTransit: real, terminal: string, dwell: real)
    returns (r: Result<Boundary>)
    ensures r == Detect(rows, minTransit, terminal, dwell)
  {
    if terminal == ENCOUNTER_CLEAR_WITH_OWN_HOLD {
      var b := FindTargetResolutionBoundary(rows, minTransit, dwell);
      return Ok(b);
    }
    if terminal != OWN_RECOVERY_ENTRY {
      return Err("unsupported FAST terminal: " + terminal);
    }
    var b := FindOwnRecoveryBoundary(rows, minTransit);
    return Ok(b);
  }
}
