/** What the own-recovery boundary says about the trace, without loop state. */
module OwnLifecycle {
  import opened Options
  import opened TraceRow
  import opened StableSort
  import opened EventScan
  import opened FastBoundary

  /** The detector ignores every label outside 0..7. */
  function HasKnownLabel(r: Row): bool {
    0 <= BehaviorOf(r) <= 7
  }

  /** The time-sorted M4 rows whose label is one of the eight modes. */
  function Modes(rows: seq<Row>): seq<Row> {
    Filter(HasKnownLabel, OwnEvents(rows))
  }

  /** First index from `from` on whose label differs from `mode`. */
  function FirstOther(c: seq<Row>, from: nat, mode: int): (n: nat)
    requires from <= |c|
    ensures from <= n <= |c|
    ensures forall k :: from <= k < n ==> BehaviorOf(c[k]) == mode
    ensures n < |c| ==> BehaviorOf(c[n]) != mode
    decreases |c| - from
  {
    if from < |c| && BehaviorOf(c[from]) == mode then FirstOther(c, from + 1, mode) else from
  }

  /** The boundary read off the mode sequence: the TRANSIT block ends at `i`, the AVOIDANCE block at `j`. */
  function Outcome(c: seq<Row>, minTransit: real): Boundary
    requires forall r :: r in c ==> HasKnownLabel(r)
  {
    var i := FirstOther(c, 0, TRANSIT);
    var start := if i > 0 then Some(c[0].t) else None;
    if i == |c| then Timeout(start, None, None, AvoidanceNotReached)
    else if BehaviorOf(c[i]) == RECOVERY then Red(start, None, Some(c[i].t), c[i].t, AvoidanceNotReached)
    else if BehaviorOf(c[i]) != AVOIDANCE then
      Red(start, None, None, c[i].t, NonColregsBehaviorBeforeAvoidance)
    else if i == 0 then Red(None, None, None, c[i].t, TransitNotObserved)
    else if c[i - 1].t - c[0].t < minTransit then
      Red(start, Some(c[i].t), None, c[i].t, TransitPrefixTooShort)
    else
      var j := FirstOther(c, i, AVOIDANCE);
      var avoid := Some(c[i].t);
      if j == |c| then Timeout(start, avoid, None, RecoveryBoundaryNotReached)
      else match BehaviorOf(c[j])
        case 7 => Boundary(true, start, avoid, Some(c[j].t), Some(c[j].t), Some(FirstM4Recovery), None)
        case 0 => Red(start, avoid, None, c[j].t, AvoidanceAbortedBeforeRecovery)
        case 2 => Red(start, avoid, None, c[j].t, NonColregsBehaviorInterruptedAvoidance)
        case 3 => Red(start, avoid, None, c[j].t, NonColregsBehaviorInterruptedAvoidance)
        case _ => Red(start, avoid, None, c[j].t, MrcBeforeRecovery)
  }

  /** The loop inside the AVOIDANCE block `i..`, resumed at `k`. */
  lemma {:induction false} AvoidancePhase(c: seq<Row>, minTransit: real, i: nat, k: nat)
    requires forall r :: r in c ==> HasKnownLabel(r)
    requires 0 < i < k <= |c| && i == FirstOther(c, 0, TRANSIT) && BehaviorOf(c[i]) == AVOIDANCE
    requires c[i - 1].t - c[0].t >= minTransit
    requires k <= FirstOther(c, i, AVOIDANCE)
    ensures Run(OwnStep(minTransit), OwnHorizon,
                OwnState(Some(c[0].t), Some(c[i - 1].t), Some(c[i].t)), c[k..])
         == Outcome(c, minTransit)
    decreases |c| - k
  {
    if k < |c| && BehaviorOf(c[k]) == AVOIDANCE {
      assert c[k..][1..] == c[k + 1..];
      AvoidancePhase(c, minTransit, i, k + 1);
    } else if k < |c| {
      assert c[k] in c;
    }
  }

  /** The loop inside the TRANSIT block, resumed at `k`. */
  lemma {:induction false} TransitPhase(c: seq<Row>, minTransit: real, k: nat)
    requires forall r :: r in c ==> HasKnownLabel(r)
    requires k <= FirstOther(c, 0, TRANSIT)
    ensures Run(OwnStep(minTransit), OwnHorizon,
                if k == 0 then OWN_INIT else OwnState(Some(c[0].t), Some(c[k - 1].t), None), c[k..])
         == Outcome(c, minTransit)
    decreases |c| - k
  {
    if k < |c| {
      assert c[k..][1..] == c[k + 1..];
      assert c[k] in c;
      if BehaviorOf(c[k]) == TRANSIT {
        TransitPhase(c, minTransit, k + 1);
      } else if BehaviorOf(c[k]) == AVOIDANCE && k > 0 && c[k - 1].t - c[0].t >= minTransit {
        AvoidancePhase(c, minTransit, k, k + 1);
      }
    }
  }

  /** Every field of every own-recovery boundary, including each RED, read off the mode sequence. */
  lemma OwnBoundaryIsOutcome(rows: seq<Row>, minTransit: real)
    ensures OwnBoundary(rows, minTransit) == Outcome(Modes(rows), minTransit)
  {
    var c := Modes(rows);
    RunSeesOnlySelected(OwnStep(minTransit), OwnHorizon, HasKnownLabel, OWN_INIT, OwnEvents(rows));
    TransitPhase(c, minTransit, 0);
    assert c[0..] == c;
  }

  /** The mode sequence starts with `i` TRANSITs, then AVOIDANCEs up to `j`, then RECOVERY at `j`. */
  ghost predicate IsLifecycle(c: seq<Row>, minTransit: real, i: int, j: int) {
    && 0 < i < j < |c|
    && (forall k :: 0 <= k < i ==> BehaviorOf(c[k]) == TRANSIT)
    && (forall k :: i <= k < j ==> BehaviorOf(c[k]) == AVOIDANCE)
    && BehaviorOf(c[j]) == RECOVERY
    && c[i - 1].t - c[0].t >= minTransit
  }

  lemma LifecycleIsReady(rows: seq<Row>, minTransit: real, i: int, j: int)
    requires IsLifecycle(Modes(rows), minTransit, i, j)
    ensures var c := Modes(rows);
            OwnBoundary(rows, minTransit) ==
            Boundary(true, Some(c[0].t), Some(c[i].t), Some(c[j].t), Some(c[j].t), Some(FirstM4Recovery), None)
  {
    var c := Modes(rows);
    assert BehaviorOf(c[i]) == AVOIDANCE;
    assert FirstOther(c, 0, TRANSIT) == i;
    assert FirstOther(c, i, AVOIDANCE) == j;
    OwnBoundaryIsOutcome(rows, minTransit);
  }

  lemma ReadyHasLifecycle(rows: seq<Row>, minTransit: real) returns (i: int, j: int)
    requires OwnBoundary(rows, minTransit).ready
    ensures IsLifecycle(Modes(rows), minTransit, i, j)
  {
    var c := Modes(rows);
    OwnBoundaryIsOutcome(rows, minTransit);
    i := FirstOther(c, 0, TRANSIT);
    j := FirstOther(c, i, AVOIDANCE);
    assert BehaviorOf(c[j]) == RECOVERY;
  }

  /** Ready exactly when the modes begin 0+ 1+ 7 with a long enough 0-block. */
  lemma ReadyIffLifecycle(rows: seq<Row>, minTransit: real)
    ensures OwnBoundary(rows, minTransit).ready
       <==> exists i, j :: IsLifecycle(Modes(rows), minTransit, i, j)
  {
    if OwnBoundary(rows, minTransit).ready {
      var i, j := ReadyHasLifecycle(rows, minTransit);
    }
    if i, j :| IsLifecycle(Modes(rows), minTransit, i, j) {
      LifecycleIsReady(rows, minTransit, i, j);
    }
  }

  lemma ModesAreOrdered(rows: seq<Row>)
    ensures Sorted(Time, Modes(rows))
  {
    SortSorted(Time, Filter(IsBehaviorPlan, rows));
    FilterSorted(Time, HasKnownLabel, OwnEvents(rows));
  }

  /** The instants of a ready boundary are ordered and its TRANSIT prefix is long enough. */
  lemma ReadyBoundaryIsOrdered(rows: seq<Row>, minTransit: real)
    requires OwnBoundary(rows, minTransit).ready
    ensures var b := OwnBoundary(rows, minTransit);
            && b.transitStart.Some? && b.avoidanceStart.Some? && b.recoveryStart.Some?
            && b.transitStart.value <= b.avoidanceStart.value <= b.recoveryStart.value
            && b.stop == b.recoveryStart
            && b.TransitDuration() >= minTransit
  {
    var i, j := ReadyHasLifecycle(rows, minTransit);
    LifecycleIsReady(rows, minTransit, i, j);
    ModesAreOrdered(rows);
    var c := Modes(rows);
    assert Time(c[0]) <= Time(c[i - 1]) <= Time(c[i]) <= Time(c[j]);
  }

  /** How the stop reason, the stop time, the failure code and `ready` of a boundary go together. */
  ghost predicate ReasonsFit(b: Boundary) {
    && (b.Terminal() <==> b.stopReason.Some?)
    && (b.ready <==> b.failureCode.None?)
    && (b.ready <==> b.stopReason == Some(FirstM4Recovery) || b.stopReason == Some(EncounterClearWithOwnHold))
    && (b.Terminal() ==>
          (b.stopReason.value in TERMINAL_REASONS
           <==> b.stopReason.value != AvoidanceNotReached && b.stopReason.value != EncounterClearWithOwnHold))
  }

  lemma OutcomeReasonsFit(c: seq<Row>, minTransit: real)
    requires forall r :: r in c ==> HasKnownLabel(r)
    ensures ReasonsFit(Outcome(c, minTransit))
  {
  }

  lemma TargetReasonsFit(rows: seq<Row>, minTransit: real, dwell: real)
    ensures ReasonsFit(TargetBoundary(rows, minTransit, dwell))
  {
    RunAtHalt(TargetStep(minTransit, dwell), TargetHorizon(minTransit), TARGET_INIT, TargetEvents(rows));
  }

  /** The detector's documentation equates "stopped" with a fixed set of reasons.  The code also
      stops with the two reasons named in `ReasonsFit`, and with no others. */
  lemma TerminalReasons(rows: seq<Row>, minTransit: real, terminal: string, dwell: real)
    requires Detect(rows, minTransit, terminal, dwell).Ok?
    ensures ReasonsFit(Detect(rows, minTransit, terminal, dwell).value)
  {
    OwnBoundaryIsOutcome(rows, minTransit);
    OutcomeReasonsFit(Modes(rows), minTransit);
    TargetReasonsFit(rows, minTransit, dwell);
  }

  /** An own-recovery run stops outside the documented reasons exactly when the first mode that is not TRANSIT
      is RECOVERY. */
  lemma OwnStopsOutsideIff(rows: seq<Row>, minTransit: real)
    ensures var b, c := OwnBoundary(rows, minTransit), Modes(rows);
            b.Terminal() && b.stopReason.Some? && b.stopReason.value !in TERMINAL_REASONS
            <==> exists i :: 0 <= i < |c| && BehaviorOf(c[i]) == RECOVERY
                   && forall k :: 0 <= k < i ==> BehaviorOf(c[k]) == TRANSIT
  {
    var c := Modes(rows);
    OwnBoundaryIsOutcome(rows, minTransit);
    OutcomeStopsOutside(c, minTransit);
    var n := FirstOther(c, 0, TRANSIT);
    if i :| 0 <= i < |c| && BehaviorOf(c[i]) == RECOVERY && forall k :: 0 <= k < i ==> BehaviorOf(c[k]) == TRANSIT {
      assert n == i;
    }
  }

  lemma OutcomeStopsOutside(c: seq<Row>, minTransit: real)
    requires forall r :: r in c ==> HasKnownLabel(r)
    ensures var b, n := Outcome(c, minTransit), FirstOther(c, 0, TRANSIT);
            b.Terminal() && b.stopReason.Some? && b.stopReason.value !in TERMINAL_REASONS
            <==> n < |c| && BehaviorOf(c[n]) == RECOVERY
  {
    OutcomeReasonsFit(c, minTransit);
  }

  /** Such runs exist: one RECOVERY row and nothing else. */
  lemma RecoveryFirstStopsOutside()
    ensures OwnBoundary([PlanRow(0.0, Whole(7))], 60.0).stopReason == Some(AvoidanceNotReached)
    ensures AvoidanceNotReached !in TERMINAL_REASONS
  {
    var rows := [PlanRow(0.0, Whole(7))];
    assert Filter(IsBehaviorPlan, rows) == rows && OwnEvents(rows) == rows;
    assert Modes(rows) == rows;
    OwnBoundaryIsOutcome(rows, 60.0);
  }
}
