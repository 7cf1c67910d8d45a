/** What the target-resolution boundary says about the trace, without loop state. */
module TargetLifecycle {
  import opened Options
  import opened TraceRow
  import opened StableSort
  import opened EventScan
  import opened FastBoundary
  import opened ClearDwell

  // ----- The trace in front of a row -----

  function IsTransitPlan(r: Row): bool {
    IsBehaviorPlan(r) && BehaviorOf(r) == TRANSIT
  }

  /** First and last TRANSIT sample of a piece of trace are far enough apart. */
  predicate TransitSpanMet(events: seq<Row>, minTransit: real) {
    var z := Filter(IsTransitPlan, events);
    z != [] && z[|z| - 1].t - z[0].t >= minTransit
  }

  function FirstTransit(events: seq<Row>): Option<real> {
    var z := Filter(IsTransitPlan, events);
    if z == [] then None else Some(z[0].t)
  }

  function LastTransit(events: seq<Row>): Option<real> {
    var z := Filter(IsTransitPlan, events);
    if z == [] then None else Some(z[|z| - 1].t)
  }

  /** Own ship leaves TRANSIT. */
  predicate TakesOver(e: seq<Row>, n: int) {
    0 <= n < |e| && IsBehaviorPlan(e[n]) && BehaviorOf(e[n]) != TRANSIT
  }

  /** The clear dwell is complete at `n`, and the TRANSIT rows in front of `n` span the minimum. */
  ghost predicate IsResolved(e: seq<Row>, minTransit: real, dwell: real, n: int) {
    DwellComplete(Time, e, dwell, n) && TransitSpanMet(e[..n], minTransit)
  }

  ghost predicate StopsAt(e: seq<Row>, minTransit: real, dwell: real, n: int) {
    TakesOver(e, n) || IsResolved(e, minTransit, dwell, n)
  }

  /** First index from `from` on at which the run stops, or the number of rows. */
  ghost function FirstStop(e: seq<Row>, minTransit: real, dwell: real, from: nat): (n: nat)
    requires from <= |e|
    ensures from <= n <= |e|
    ensures n < |e| ==> StopsAt(e, minTransit, dwell, n)
    ensures forall k :: from <= k < n ==> !StopsAt(e, minTransit, dwell, k)
    decreases |e| - from
  {
    if from == |e| || StopsAt(e, minTransit, dwell, from) then from
    else FirstStop(e, minTransit, dwell, from + 1)
  }

  /** The dwell was complete at `k` and no row since was active. */
  ghost predicate StillComplete(e: seq<Row>, dwell: real, k: int, n: int) {
    k < n <= |e| && DwellComplete(Time, e, dwell, k) && forall j :: k < j < n ==> !IsActive(e[j])
  }

  ghost predicate DwellStands(e: seq<Row>, dwell: real, n: int) {
    exists k :: StillComplete(e, dwell, k, n)
  }

  /** The boundary read off the sorted M4 and M6 rows. */
  ghost function TargetOutcome(e: seq<Row>, minTransit: real, dwell: real): Boundary {
    var n := FirstStop(e, minTransit, dwell, 0);
    if n == |e| then
      Timeout(FirstTransit(e), None, SpellSince(Time, e, n),
              if DwellStands(e, dwell, n) && FirstTransit(e).None? then TransitNotObserved
              else if DwellStands(e, dwell, n) && !TransitSpanMet(e, minTransit) then TransitPrefixTooShort
              else EncounterClearNotReached)
    else if TakesOver(e, n) then
      Red(FirstTransit(e[..n]), None, None, e[n].t, OwnTacticalTakeoverForTargetResolution)
    else
      Boundary(true, FirstTransit(e[..n]), None, SpellSince(Time, e, n), Some(e[n].t),
               Some(EncounterClearWithOwnHold), None)
  }

  // ----- The loop variables, as functions of the rows passed -----

  ghost function StateAt(e: seq<Row>, dwell: real, n: nat): TargetState
    requires n <= |e|
  {
    TargetState(FirstTransit(e[..n]), LastTransit(e[..n]), ClearStateAt(Time, e, n), DwellStands(e, dwell, n))
  }

  lemma {:induction false} FilterSnoc(p: Row -> bool, s: seq<Row>, r: Row)
    ensures Filter(p, s + [r]) == if p(r) then Filter(p, s) + [r] else Filter(p, s)
  {
    if s == [] {
      assert s + [r] == [r];
    } else {
      assert (s + [r])[1..] == s[1..] + [r];
      FilterSnoc(p, s[1..], r);
    }
  }

  lemma TransitsNext(e: seq<Row>, n: nat)
    requires n < |e|
    ensures FirstTransit(e[..n + 1])
         == if IsTransitPlan(e[n]) && FirstTransit(e[..n]).None? then Some(e[n].t) else FirstTransit(e[..n])
    ensures LastTransit(e[..n + 1]) == if IsTransitPlan(e[n]) then Some(e[n].t) else LastTransit(e[..n])
  {
    assert e[..n + 1] == e[..n] + [e[n]];
    FilterSnoc(IsTransitPlan, e[..n], e[n]);
  }

  lemma DwellStandsNext(e: seq<Row>, dwell: real, n: nat)
    requires n < |e|
    ensures DwellStands(e, dwell, n + 1)
       <==> DwellComplete(Time, e, dwell, n) || (DwellStands(e, dwell, n) && !IsActive(e[n]))
  {
    if DwellStands(e, dwell, n) && !IsActive(e[n]) {
      var k :| StillComplete(e, dwell, k, n);
      assert StillComplete(e, dwell, k, n + 1);
    }
    if DwellComplete(Time, e, dwell, n) {
      assert StillComplete(e, dwell, n, n + 1);
    }
    if DwellStands(e, dwell, n + 1) {
      var k :| StillComplete(e, dwell, k, n + 1);
      assert k < n ==> StillComplete(e, dwell, k, n);
    }
  }

  /** One iteration on named parts of the state, so that their definitions stay out of the case analysis. */
  lemma StepCases(s: TargetState, s': TargetState, r: Row, complete: bool, span: bool, minTransit: real, dwell: real)
    requires s'.transitStart == if IsTransitPlan(r) && s.transitStart.None? then Some(r.t) else s.transitStart
    requires s'.transitLast == if IsTransitPlan(r) then Some(r.t) else s.transitLast
    requires s'.clear == if IsConstraint(r) then ClearNext(s.clear, r, r.t) else s.clear
    requires complete <==> IsConstraint(r) && DwellMet(s.clear, r, r.t, dwell)
    requires s'.dwellReady <==> complete || (s.dwellReady && !(IsConstraint(r) && EncounterActive(r)))
    requires span <==> SpanMet(s, minTransit)
    ensures var step := TargetStepAt(s, r, minTransit, dwell);
            if IsBehaviorPlan(r) && BehaviorOf(r) != TRANSIT then
              step == Halt(Red(s.transitStart, None, None, r.t, OwnTacticalTakeoverForTargetResolution))
            else if complete && span then
              step == Halt(Boundary(true, s.transitStart, None, s.clear.clearSince, Some(r.t),
                                    Some(EncounterClearWithOwnHold), None))
            else step == Go(s')
  {
  }

  lemma SpanOfState(e: seq<Row>, minTransit: real, dwell: real, n: nat)
    requires n <= |e|
    ensures SpanMet(StateAt(e, dwell, n), minTransit) <==> TransitSpanMet(e[..n], minTransit)
  {
  }

  lemma StepFits(e: seq<Row>, minTransit: real, dwell: real, n: nat)
    requires n < |e|
    ensures var step := TargetStepAt(StateAt(e, dwell, n), e[n], minTransit, dwell);
            if TakesOver(e, n) then
              step == Halt(Red(FirstTransit(e[..n]), None, None, e[n].t, OwnTacticalTakeoverForTargetResolution))
            else if IsResolved(e, minTransit, dwell, n) then
              step == Halt(Boundary(true, FirstTransit(e[..n]), None, SpellSince(Time, e, n), Some(e[n].t),
                                    Some(EncounterClearWithOwnHold), None))
            else step == Go(StateAt(e, dwell, n + 1))
  {
    TransitsNext(e, n);
    ClearStateNext(Time, e, n);
    DwellMetIff(Time, e, n, dwell);
    DwellStandsNext(e, dwell, n);
    SpanOfState(e, minTransit, dwell, n);
    StepCases(StateAt(e, dwell, n), StateAt(e, dwell, n + 1), e[n], DwellComplete(Time, e, dwell, n),
              TransitSpanMet(e[..n], minTransit), minTransit, dwell);
  }

  lemma StartState(e: seq<Row>, dwell: real)
    ensures StateAt(e, dwell, 0) == TARGET_INIT
  {
  }

  /** The scan ends at the first stop, with the boundary read off the rows. */
  lemma TargetScan(e: seq<Row>, minTransit: real, dwell: real)
    ensures HaltIndex(TargetStep(minTransit, dwell), TARGET_INIT, e) == FirstStop(e, minTransit, dwell, 0)
    ensures Run(TargetStep(minTransit, dwell), TargetHorizon(minTransit), TARGET_INIT, e)
         == TargetOutcome(e, minTransit, dwell)
  {
    var m := FirstStop(e, minTransit, dwell, 0);
    var states := seq(m + 1, k requires 0 <= k <= m => StateAt(e, dwell, k));
    forall k | 0 <= k <= m && k < |e|
      ensures k < m ==> TargetStepAt(states[k], e[k], minTransit, dwell) == Go(states[k + 1])
      ensures k == m ==> TargetStepAt(states[k], e[k], minTransit, dwell).Halt?
    {
      StepFits(e, minTransit, dwell, k);
      assert k < m ==> !StopsAt(e, minTransit, dwell, k) && states[k + 1] == StateAt(e, dwell, k + 1);
    }
    StartState(e, dwell);
    HaltsAt(TargetStep(minTransit, dwell), e, states, m);
    RunAtHalt(TargetStep(minTransit, dwell), TargetHorizon(minTransit), TARGET_INIT, e);
    if m < |e| {
      StepFits(e, minTransit, dwell, m);
    } else {
      assert e[..m] == e;
      SpanOfState(e, minTransit, dwell, m);
    }
  }

  /** Every field of every target-resolution boundary, each RED and each horizon code included, read off
      the time-sorted M4 and M6 rows. */
  lemma TargetBoundaryIsOutcome(rows: seq<Row>, minTransit: real, dwell: real)
    ensures TargetBoundary(rows, minTransit, dwell) == TargetOutcome(TargetEvents(rows), minTransit, dwell)
  {
    TargetScan(TargetEvents(rows), minTransit, dwell);
  }

  lemma OutcomeReady(e: seq<Row>, minTransit: real, dwell: real)
    ensures var n := FirstStop(e, minTransit, dwell, 0);
            TargetOutcome(e, minTransit, dwell).ready <==> n < |e| && !TakesOver(e, n)
  {
  }

  /** A row that is resolved while own ship is still in TRANSIT. */
  ghost predicate IsPassRow(e: seq<Row>, minTransit: real, dwell: real, n: int) {
    IsResolved(e, minTransit, dwell, n) && forall k :: 0 <= k < n ==> !TakesOver(e, k)
  }

  lemma PassRowIsNotBeforeStop(e: seq<Row>, minTransit: real, dwell: real, n: int)
    requires IsPassRow(e, minTransit, dwell, n)
    ensures var m := FirstStop(e, minTransit, dwell, 0);
            m <= n && m < |e| && !TakesOver(e, m)
  {
    assert DwellComplete(Time, e, dwell, n) && !TakesOver(e, n);
    assert StopsAt(e, minTransit, dwell, n);
  }

  lemma StopIsPassRow(e: seq<Row>, minTransit: real, dwell: real)
    requires var m := FirstStop(e, minTransit, dwell, 0); m < |e| && !TakesOver(e, m)
    ensures IsPassRow(e, minTransit, dwell, FirstStop(e, minTransit, dwell, 0))
  {
    var m := FirstStop(e, minTransit, dwell, 0);
    forall k | 0 <= k < m ensures !TakesOver(e, k) {
      assert !StopsAt(e, minTransit, dwell, k);
    }
  }

  /** Ready exactly when some row is resolved and own ship has not left TRANSIT in front of it. */
  lemma TargetReadyIff(rows: seq<Row>, minTransit: real, dwell: real)
    ensures TargetBoundary(rows, minTransit, dwell).ready
       <==> exists n :: IsPassRow(TargetEvents(rows), minTransit, dwell, n)
  {
    var e := TargetEvents(rows);
    TargetBoundaryIsOutcome(rows, minTransit, dwell);
    OutcomeReady(e, minTransit, dwell);
    if TargetOutcome(e, minTransit, dwell).ready {
      StopIsPassRow(e, minTransit, dwell);
    }
    if n :| IsPassRow(e, minTransit, dwell, n) {
      PassRowIsNotBeforeStop(e, minTransit, dwell, n);
    }
  }

  /** A target-resolution run stops outside the documented reasons exactly when it passes. */
  lemma TargetStopsOutsideIff(rows: seq<Row>, minTransit: real, dwell: real)
    ensures var b := TargetBoundary(rows, minTransit, dwell);
            b.Terminal() && b.stopReason.Some? && b.stopReason.value !in TERMINAL_REASONS
            <==> exists n :: IsPassRow(TargetEvents(rows), minTransit, dwell, n)
  {
    TargetReadyIff(rows, minTransit, dwell);
    TargetBoundaryIsOutcome(rows, minTransit, dwell);
    OutcomeStopsOutside(TargetEvents(rows), minTransit, dwell);
  }

  lemma OutcomeStopsOutside(e: seq<Row>, minTransit: real, dwell: real)
    ensures var b := TargetOutcome(e, minTransit, dwell);
            b.ready <==> b.Terminal() && b.stopReason.Some? && b.stopReason.value !in TERMINAL_REASONS
  {
  }
}
