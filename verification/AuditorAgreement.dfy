/** The boundary detector and the artifact auditor find the same instants. */
module AuditorAgreement {
  import opened Options
  import opened TraceRow
  import opened StableSort
  import opened EventScan
  import opened FastBoundary
  import opened BoundarySlicing
  import opened OwnLifecycle
  import opened ClearDwell
  import opened TargetLifecycle
  import opened ArtifactConsistency

  // ----- Own-recovery mode -----

  /** The detector's `int(...)` and the auditor's `float(...)` agree on whether the row is RECOVERY. */
  predicate ReadsAlike(r: Row) {
    BehaviorOf(r) == RECOVERY <==> ToFloat(r.behavior) == Some(7.0)
  }

  /** They differ only on a float strictly between 7 and 8, which `int` truncates, and on the text "7.0". */
  lemma ReadsAlikeIff(r: Row)
    ensures ReadsAlike(r) <==> !(r.behavior.Decimal? && 7.0 < r.behavior.x < 8.0) && r.behavior != DecimalText(7.0)
  {
  }

  lemma LeastIs(xs: seq<real>, m: real)
    requires m in xs && forall x :: x in xs ==> m <= x
    ensures Least(xs) == m
  {
  }

  /** Every RECOVERY row of a ready trace is at or after the stop, and one is at the stop. */
  lemma FirstRecoveryIsTheStop(rows: seq<Row>, minTransit: real) returns (first: Row)
    requires OwnBoundary(rows, minTransit).ready
    ensures first in rows && IsBehaviorPlan(first) && BehaviorOf(first) == RECOVERY
    ensures Some(first.t) == OwnBoundary(rows, minTransit).recoveryStart
    ensures forall r :: r in rows && IsBehaviorPlan(r) && BehaviorOf(r) == RECOVERY ==> first.t <= r.t
  {
    var c := Modes(rows);
    var i, j := ReadyHasLifecycle(rows, minTransit);
    LifecycleIsReady(rows, minTransit, i, j);
    ModesAreOrdered(rows);
    first := c[j];
    forall r | r in rows && IsBehaviorPlan(r) && BehaviorOf(r) == RECOVERY ensures first.t <= r.t {
      assert r in Filter(IsBehaviorPlan, rows) && r in OwnEvents(rows) && r in c;
      var k :| 0 <= k < |c| && c[k] == r;
      assert k >= j;
      assert Time(c[j]) <= Time(c[k]);
    }
  }

  /** A ready boundary's recovery instant is the auditor's minimum over the raw RECOVERY rows. */
  lemma OwnAuditorsAgree(rows: seq<Row>, minTransit: real)
    requires OwnBoundary(rows, minTransit).ready
    requires forall r :: r in rows && IsBehaviorPlan(r) ==> ReadsAlike(r)
    ensures RawRecoveryTime(rows) == OwnBoundary(rows, minTransit).recoveryStart
  {
    var first := FirstRecoveryIsTheStop(rows, minTransit);
    var recoveries := Filter(ClaimsRecovery, rows);
    assert first in recoveries;
    var n :| 0 <= n < |recoveries| && recoveries[n] == first;
    assert Times(recoveries)[n] == first.t;
    forall x | x in Times(recoveries) ensures first.t <= x {
      var k :| 0 <= k < |recoveries| && Times(recoveries)[k] == x;
      assert recoveries[k] in recoveries;
    }
    LeastIs(Times(recoveries), first.t);
  }

  /** The auditor claims a RECOVERY at exactly the instant `t`. */
  ghost predicate ClaimedAt(rows: seq<Row>, t: real) {
    exists r :: r in rows && ClaimsRecovery(r) && r.t == t
  }

  lemma RawRecoveryIs(rows: seq<Row>, t: real)
    ensures RawRecoveryTime(rows) == Some(t)
       <==> ClaimedAt(rows, t) && forall r :: r in rows && ClaimsRecovery(r) ==> t <= r.t
  {
    var recoveries := Filter(ClaimsRecovery, rows);
    var ts := Times(recoveries);
    forall r | r in rows && ClaimsRecovery(r) ensures r.t in ts {
      var k :| 0 <= k < |recoveries| && recoveries[k] == r;
      assert ts[k] == r.t;
    }
    forall x | x in ts ensures exists r :: r in rows && ClaimsRecovery(r) && r.t == x {
      var k :| 0 <= k < |ts| && ts[k] == x;
      assert recoveries[k] in recoveries;
    }
    if ClaimedAt(rows, t) && forall r :: r in rows && ClaimsRecovery(r) ==> t <= r.t {
      LeastIs(ts, t);
    }
  }

  /** For a ready boundary the two instants are equal exactly when some row at the stop reads as the float 7
      and no earlier M4 row carries the text "7.0". */
  lemma OwnInstantsAgreeIff(rows: seq<Row>, minTransit: real)
    requires OwnBoundary(rows, minTransit).ready
    ensures var b := OwnBoundary(rows, minTransit);
            RawRecoveryTime(rows) == b.recoveryStart
            <==> ClaimedAt(rows, b.recoveryStart.value)
                 && forall r :: r in rows && IsBehaviorPlan(r) && r.t < b.recoveryStart.value ==>
                      r.behavior != DecimalText(7.0)
  {
    var stop := OwnBoundary(rows, minTransit).recoveryStart.value;
    var first := FirstRecoveryIsTheStop(rows, minTransit);
    RawRecoveryIs(rows, stop);
    forall r | r in rows && IsBehaviorPlan(r) && r.t < stop
      ensures ClaimsRecovery(r) <==> r.behavior == DecimalText(7.0)
    {
      ReadsAlikeIff(r);
      assert BehaviorOf(r) != RECOVERY;
    }
  }

  lemma PlainTraceIsItsModes(rows: seq<Row>)
    requires Sorted(Time, rows) && forall r :: r in rows ==> IsBehaviorPlan(r) && HasKnownLabel(r)
    ensures Modes(rows) == rows
  {
    FilterKeepsAll(IsBehaviorPlan, rows);
    SortSortedSequence(rows);
    FilterKeepsAll(HasKnownLabel, rows);
  }

  lemma ReadyButUnclaimed(rows: seq<Row>)
    requires |rows| == 4 && Sorted(Time, rows)
    requires forall r :: r in rows ==> IsBehaviorPlan(r) && HasKnownLabel(r) && ToFloat(r.behavior) != Some(7.0)
    requires IsLifecycle(rows, 60.0, 2, 3)
    ensures OwnBoundary(rows, 60.0).ready && RawRecoveryTime(rows) == None
  {
    PlainTraceIsItsModes(rows);
    LifecycleIsReady(rows, 60.0, 2, 3);
    FilterKeepsNone(ClaimsRecovery, rows);
  }

  const FRACTIONAL_TRACE := [PlanRow(0.0, Whole(0)), PlanRow(60.0, Whole(0)), PlanRow(61.0, Whole(1)),
                             PlanRow(70.0, Decimal(7.5))]

  /** With the label 7.5 the detector passes a run in which the auditor sees no recovery at all. */
  lemma FractionalLabelSplitsTheAuditors()
    ensures OwnBoundary(FRACTIONAL_TRACE, 60.0).ready && RawRecoveryTime(FRACTIONAL_TRACE) == None
  {
    assert BehaviorOf(FRACTIONAL_TRACE[3]) == 7 by { assert 7.5.Floor == 7; }
    ReadyButUnclaimed(FRACTIONAL_TRACE);
  }

  lemma {:induction false} SortSortedSequence(s: seq<Row>)
    requires Sorted(Time, s)
    ensures Sort(Time, s) == s
  {
    if s != [] {
      SortSortedSequence(s[1..]);
      assert |s| > 1 ==> Time(s[0]) <= Time(s[1]);
    }
  }

  // ----- Target-resolution mode -----

  /** Index, in the sorted M4 and M6 rows, of the row at which the detector stops. */
  ghost function StopIndex(rows: seq<Row>, minTransit: real, dwell: real): nat {
    FirstStop(TargetEvents(rows), minTransit, dwell, 0)
  }

  /** Index, in the same sequence, of the row at which the auditor's clear dwell completes. */
  ghost function ClearIndex(rows: seq<Row>, dwell: real): nat {
    FirstDwell(Time, TargetEvents(rows), dwell, 0)
  }

  /** The auditor sorts the M6 rows alone; scanning them among the M4 rows gives the same terminal. */
  lemma AuditorSeesTheSameRows(rows: seq<Row>, dwell: real)
    ensures Run(ClearStep(Time, dwell), NeverClear, CLEAR_INIT, TargetEvents(rows))
         == ClearTerminalRow(Time, rows, dwell)
  {
    FilterOfWeakerFilter(IsConstraint, IsLifecycleRow, rows);
    FilterCommutesWithSort(Time, IsConstraint, Filter(IsLifecycleRow, rows));
    RunSeesOnlySelected(ClearStep(Time, dwell), NeverClear, IsConstraint, CLEAR_INIT, TargetEvents(rows));
  }

  /** The two scans in lock-step, from any pair of matching states. */
  lemma {:induction false} DetectorTrailsAuditor(events: seq<Row>, s: TargetState, minTransit: real, dwell: real)
    requires Run(TargetStep(minTransit, dwell), TargetHorizon(minTransit), s, events).ready
    ensures var n := HaltIndex(TargetStep(minTransit, dwell), s, events);
            var m := HaltIndex(ClearStep(Time, dwell), s.clear, events);
            && m <= n < |events|
            && (m == n <==> SpanMet(After(TargetStep(minTransit, dwell), s, events, m), minTransit))
    decreases |events|
  {
    if events != [] {
      var step := TargetStepAt(s, events[0], minTransit, dwell);
      if step.Go? {
        DetectorTrailsAuditor(events[1..], step.state, minTransit, dwell);
      }
    }
  }

  /** In a ready trace the stop row is resolved, so the auditor's row is not behind it. */
  lemma StopAndClearRows(rows: seq<Row>, minTransit: real, dwell: real)
    requires TargetBoundary(rows, minTransit, dwell).ready
    ensures var e := TargetEvents(rows);
            && ClearIndex(rows, dwell) <= StopIndex(rows, minTransit, dwell) < |e|
            && IsPassRow(e, minTransit, dwell, StopIndex(rows, minTransit, dwell))
            && TargetBoundary(rows, minTransit, dwell).stop == Some(e[StopIndex(rows, minTransit, dwell)].t)
            && RawClearTerminal(rows, dwell) == Some(e[ClearIndex(rows, dwell)].t)
  {
    var e := TargetEvents(rows);
    TargetBoundaryIsOutcome(rows, minTransit, dwell);
    OutcomeReady(e, minTransit, dwell);
    StopIsPassRow(e, minTransit, dwell);
    ClearScan(Time, e, dwell);
    AuditorSeesTheSameRows(rows, dwell);
  }

  lemma SameRowIffSpanMet(rows: seq<Row>, minTransit: real, dwell: real)
    requires TargetBoundary(rows, minTransit, dwell).ready
    requires ClearIndex(rows, dwell) <= StopIndex(rows, minTransit, dwell) < |TargetEvents(rows)|
    requires IsPassRow(TargetEvents(rows), minTransit, dwell, StopIndex(rows, minTransit, dwell))
    ensures ClearIndex(rows, dwell) == StopIndex(rows, minTransit, dwell)
       <==> TransitSpanMet(TargetEvents(rows)[..ClearIndex(rows, dwell)], minTransit)
  {
    var e, m := TargetEvents(rows), ClearIndex(rows, dwell);
    if TransitSpanMet(e[..m], minTransit) {
      assert StopsAt(e, minTransit, dwell, m);
    }
  }

  /** The raw clear terminal exists and is never later than the stop; the two scans end on the same
      row exactly when the TRANSIT rows in front of the auditor's row already span `minTransit`. */
  lemma TargetAuditorsAgree(rows: seq<Row>, minTransit: real, dwell: real)
    requires TargetBoundary(rows, minTransit, dwell).ready
    ensures RawClearTerminal(rows, dwell).Some?
    ensures RawClearTerminal(rows, dwell).value <= TargetBoundary(rows, minTransit, dwell).stop.value
    ensures ClearIndex(rows, dwell) <= |TargetEvents(rows)|
    ensures ClearIndex(rows, dwell) == StopIndex(rows, minTransit, dwell)
       <==> TransitSpanMet(TargetEvents(rows)[..ClearIndex(rows, dwell)], minTransit)
    ensures TransitSpanMet(TargetEvents(rows)[..ClearIndex(rows, dwell)], minTransit)
        ==> RawClearTerminal(rows, dwell) == TargetBoundary(rows, minTransit, dwell).stop
  {
    StopAndClearRows(rows, minTransit, dwell);
    SameRowIffSpanMet(rows, minTransit, dwell);
    EventsInOrder(TargetEvents(rows), Filter(IsLifecycleRow, rows),
                  ClearIndex(rows, dwell), StopIndex(rows, minTransit, dwell));
  }

  lemma EventsInOrder(e: seq<Row>, selected: seq<Row>, m: nat, n: nat)
    requires e == Sort(Time, selected) && m <= n < |e|
    ensures e[m].t <= e[n].t
  {
    SortSorted(Time, selected);
    assert Time(e[m]) <= Time(e[n]);
  }

  /** In terms of instants: equal exactly when the span was met, unless a later row carries the very
      same time stamp as the auditor's row. */
  lemma TargetInstantsAgreeIff(rows: seq<Row>, minTransit: real, dwell: real)
    requires TargetBoundary(rows, minTransit, dwell).ready
    requires var e, m := TargetEvents(rows), ClearIndex(rows, dwell);
             m < |e| ==> forall k :: m < k < |e| ==> e[k].t != e[m].t
    ensures RawClearTerminal(rows, dwell) == TargetBoundary(rows, minTransit, dwell).stop
       <==> TransitSpanMet(TargetEvents(rows)[..ClearIndex(rows, dwell)], minTransit)
  {
    StopAndClearRows(rows, minTransit, dwell);
    TargetAuditorsAgree(rows, minTransit, dwell);
  }

  function ConstraintRow(t: real, conflict: bool): Row {
    PlanRow(t, Absent).(topic := ColregsConstraint, conflictDetected := conflict)
  }

  /** A conflict that clears at 2 s and again at `t`, and a TRANSIT span that is only complete at `u`. */
  function LateSpanTrace(t: real, u: real, v: real): seq<Row> {
    [PlanRow(0.0, Whole(0)), ConstraintRow(1.0, true), ConstraintRow(2.0, false),
     ConstraintRow(t, false), PlanRow(u, Whole(0)), ConstraintRow(v, false)]
  }

  lemma SortedTraceIsItsEvents(rows: seq<Row>)
    requires Sorted(Time, rows) && forall r :: r in rows ==> IsLifecycleRow(r)
    ensures TargetEvents(rows) == rows
  {
    FilterKeepsAll(IsLifecycleRow, rows);
    SortSortedSequence(rows);
  }

  lemma LateSpanStops(e: seq<Row>, t: real, u: real, v: real, minTransit: real)
    requires e == LateSpanTrace(t, u, v) && 12.0 <= t <= u <= v && 0.0 < minTransit <= u
    ensures FirstStop(e, minTransit, 10.0, 0) == 5
    ensures Run(TargetStep(minTransit, 10.0), TargetHorizon(minTransit), TARGET_INIT, e)
         == Boundary(true, Some(0.0), None, Some(2.0), Some(v), Some(EncounterClearWithOwnHold), None)
  {
    var s1 := TARGET_INIT.(transitStart := Some(0.0), transitLast := Some(0.0));
    var s2 := s1.(clear := ClearState(true, None));
    var s3 := s1.(clear := ClearState(true, Some(2.0)));
    var s4 := s3.(dwellReady := true);
    var s5 := s4.(transitLast := Some(u));
    HaltsAt(TargetStep(minTransit, 10.0), e, [TARGET_INIT, s1, s2, s3, s4, s5], 5);
    RunAtHalt(TargetStep(minTransit, 10.0), TargetHorizon(minTransit), TARGET_INIT, e);
    TargetScan(e, minTransit, 10.0);
  }

  lemma LateSpanClears(e: seq<Row>, t: real, u: real, v: real)
    requires e == LateSpanTrace(t, u, v) && 12.0 <= t <= u <= v
    ensures FirstDwell(Time, e, 10.0, 0) == 3
  {
    HaltsAt(ClearStep(Time, 10.0), e,
            [CLEAR_INIT, CLEAR_INIT, ClearState(true, None), ClearState(true, Some(2.0))], 3);
    ClearScan(Time, e, 10.0);
  }

  lemma LateSpanInstants(t: real, u: real, v: real, minTransit: real)
    requires 12.0 <= t <= u <= v && 0.0 < minTransit <= u
    ensures var rows := LateSpanTrace(t, u, v);
            && TargetBoundary(rows, minTransit, 10.0)
               == Boundary(true, Some(0.0), None, Some(2.0), Some(v), Some(EncounterClearWithOwnHold), None)
            && RawClearTerminal(rows, 10.0) == Some(t)
            && ClearIndex(rows, 10.0) < StopIndex(rows, minTransit, 10.0)
  {
    var rows := LateSpanTrace(t, u, v);
    SortedTraceIsItsEvents(rows);
    LateSpanStops(rows, t, u, v, minTransit);
    LateSpanClears(rows, t, u, v);
    StopAndClearRows(rows, minTransit, 10.0);
  }

  /** The proviso of `TargetInstantsAgreeIff` is needed: three rows stamped 20 s, of which the first
      completes the clear dwell, the second completes the TRANSIT span and the third stops the run. */
  lemma TiedRowsHideTheLag()
    ensures var rows := LateSpanTrace(20.0, 20.0, 20.0);
            && TargetBoundary(rows, 15.0, 10.0).ready
            && RawClearTerminal(rows, 10.0) == TargetBoundary(rows, 15.0, 10.0).stop
            && ClearIndex(rows, 10.0) < StopIndex(rows, 15.0, 10.0)
  {
    LateSpanInstants(20.0, 20.0, 20.0, 15.0);
  }

  /** With canonical times equal to event times the strict auditor names the same instant, whenever
      the terminal row carries a record id. */
  lemma StrictAuditorAgrees(rows: seq<Row>, dwell: real)
    requires forall r :: r in rows ==> r.canonical == r.t
    ensures ClearTerminalRow(CanonicalTime, rows, dwell) == ClearTerminalRow(Time, rows, dwell)
    ensures StrictClearTerminal(rows, dwell).Some? ==>
              RawClearTerminal(rows, dwell) == Some(StrictClearTerminal(rows, dwell).value.1)
    ensures StrictClearTerminal(rows, dwell).Some? <==>
              RawClearTerminal(rows, dwell).Some? && ClearTerminalRow(Time, rows, dwell).value.recordId != ""
  {
    var m6 := Filter(IsConstraint, rows);
    SortCongruence(CanonicalTime, Time, m6);
    ClocksGiveSameRun(ClearSamples(Time, rows), CLEAR_INIT, dwell);
    TerminalIsASample(ClearSamples(Time, rows), CLEAR_INIT, dwell);
  }

  lemma {:induction false} ClocksGiveSameRun(samples: seq<Row>, c: ClearState, dwell: real)
    requires forall r :: r in samples ==> r.canonical == r.t
    ensures Run(ClearStep(CanonicalTime, dwell), NeverClear, c, samples)
         == Run(ClearStep(Time, dwell), NeverClear, c, samples)
    decreases |samples|
  {
    if samples != [] {
      var step := ClearStepAt(Time, c, samples[0], dwell);
      if step.Go? {
        ClocksGiveSameRun(samples[1..], step.state, dwell);
      }
    }
  }

  lemma {:induction false} TerminalIsASample(samples: seq<Row>, c: ClearState, dwell: real)
    ensures var r := Run(ClearStep(Time, dwell), NeverClear, c, samples); r.Some? ==> r.value in samples
    decreases |samples|
  {
    if samples != [] {
      var step := ClearStepAt(Time, c, samples[0], dwell);
      if step.Go? {
        TerminalIsASample(samples[1..], step.state, dwell);
      }
    }
  }

  // ----- Both auditors together -----

  /** A report that copies a ready own-recovery boundary, audited on the slice as the evaluator does. */
  lemma HonestOwnReportPasses(rows: seq<Row>, minTransit: real, dwell: real, report: Report)
    requires OwnBoundary(rows, minTransit).ready
    requires forall r :: r in rows && IsBehaviorPlan(r) ==> ReadsAlike(r)
    requires !IsTargetResolution(report)
    requires report.firstRecovery == Decimal(OwnBoundary(rows, minTransit).recoveryStart.value)
    ensures var slice := Slice(rows, OwnBoundary(rows, minTransit).stop.value);
            AuditOf(slice, report).Passes() <==>
              RawMinCpa(slice).Some? && Admissible(ToFloat(report.minCpa), RawMinCpa(slice).value, CPA_TOL_M)
  {
    ReadyBoundaryIsOrdered(rows, minTransit);
    var slice := Slice(rows, OwnBoundary(rows, minTransit).stop.value);
    RescanningTheSliceAgrees(rows, minTransit, OWN_RECOVERY_ENTRY, dwell);
    OwnAuditorsAgree(slice, minTransit);
    AuditPassesIff(slice, report);
  }

  /** The detector waits at most `tol` for the TRANSIT span exactly when a row at most `tol` later than the
      auditor's row completes a clear dwell with the span already in front of it. */
  lemma WaitedAtMostIff(rows: seq<Row>, minTransit: real, dwell: real, tol: real)
    requires TargetBoundary(rows, minTransit, dwell).ready
    ensures RawClearTerminal(rows, dwell).Some? && ClearIndex(rows, dwell) < |TargetEvents(rows)|
    ensures var e := TargetEvents(rows);
            TargetBoundary(rows, minTransit, dwell).stop.value - RawClearTerminal(rows, dwell).value <= tol
            <==> exists k :: IsResolved(e, minTransit, dwell, k) && e[k].t - e[ClearIndex(rows, dwell)].t <= tol
  {
    StopAndClearRows(rows, minTransit, dwell);
    ResolvedWithin(TargetEvents(rows), Filter(IsLifecycleRow, rows), minTransit, dwell,
                   TargetEvents(rows)[ClearIndex(rows, dwell)].t, tol);
  }

  lemma ResolvedWithin(e: seq<Row>, selected: seq<Row>, minTransit: real, dwell: real, t: real, tol: real)
    requires e == Sort(Time, selected)
    requires var n := FirstStop(e, minTransit, dwell, 0); n < |e| && IsPassRow(e, minTransit, dwell, n)
    ensures e[FirstStop(e, minTransit, dwell, 0)].t - t <= tol
       <==> exists k :: IsResolved(e, minTransit, dwell, k) && e[k].t - t <= tol
  {
    var n := FirstStop(e, minTransit, dwell, 0);
    if k :| IsResolved(e, minTransit, dwell, k) && e[k].t - t <= tol {
      assert StopsAt(e, minTransit, dwell, k);
      EventsInOrder(e, selected, n, k);
    }
  }

  /** A report that copies a ready target-resolution boundary passes its time comparison exactly when some
      row, at most the tolerance after the auditor's row, completes a clear dwell with the TRANSIT span in
      front of it. */
  lemma HonestTargetReportPasses(rows: seq<Row>, minTransit: real, dwell: real, report: Report)
    requires TargetBoundary(rows, minTransit, dwell).ready
    requires IsTargetResolution(report) && AuditDwell(report) == dwell
    requires report.terminalTime == Decimal(TargetBoundary(rows, minTransit, dwell).stop.value)
    ensures ClearIndex(rows, dwell) < |TargetEvents(rows)|
    ensures var e := TargetEvents(rows);
            var slice := Slice(rows, TargetBoundary(rows, minTransit, dwell).stop.value);
            AuditOf(slice, report).Passes() <==>
              && RawMinCpa(slice).Some? && Admissible(ToFloat(report.minCpa), RawMinCpa(slice).value, CPA_TOL_M)
              && exists k :: IsResolved(e, minTransit, dwell, k)
                   && e[k].t - e[ClearIndex(rows, dwell)].t <= TIME_TOL_S
  {
    HonestTargetAudit(rows, minTransit, dwell, report);
    WaitedAtMostIff(rows, minTransit, dwell, TIME_TOL_S);
  }

  /** The same on the two instants. */
  lemma HonestTargetAudit(rows: seq<Row>, minTransit: real, dwell: real, report: Report)
    requires TargetBoundary(rows, minTransit, dwell).ready
    requires IsTargetResolution(report) && AuditDwell(report) == dwell
    requires report.terminalTime == Decimal(TargetBoundary(rows, minTransit, dwell).stop.value)
    ensures RawClearTerminal(rows, dwell).Some?
    ensures var stop := TargetBoundary(rows, minTransit, dwell).stop.value;
            var slice := Slice(rows, stop);
            AuditOf(slice, report).Passes() <==>
              && RawMinCpa(slice).Some? && Admissible(ToFloat(report.minCpa), RawMinCpa(slice).value, CPA_TOL_M)
              && stop - RawClearTerminal(rows, dwell).value <= TIME_TOL_S
  {
    var stop := TargetBoundary(rows, minTransit, dwell).stop.value;
    var slice := Slice(rows, stop);
    RescanningTheSliceAgrees(rows, minTransit, ENCOUNTER_CLEAR_WITH_OWN_HOLD, dwell);
    TargetAuditorsAgree(rows, minTransit, dwell);
    TargetAuditorsAgree(slice, minTransit, dwell);
    SliceKeepsClearTerminal(rows, minTransit, dwell);
    AuditPassesIff(slice, report);
  }

  /** Such a wait happens: the detector stops at 100 s, the auditor's terminal is at 20 s, and the report
      that copies the detector's own stop is rejected. */
  lemma LateSpanFailsTheAudit(report: Report)
    requires IsTargetResolution(report) && AuditDwell(report) == 10.0 && report.terminalTime == Decimal(100.0)
    ensures var rows := LateSpanTrace(20.0, 90.0, 100.0);
            && TargetBoundary(rows, 60.0, 10.0).ready
            && TargetBoundary(rows, 60.0, 10.0).stop == Some(100.0)
            && RawClearTerminal(rows, 10.0) == Some(20.0)
            && !AuditOf(Slice(rows, 100.0), report).Passes()
  {
    LateSpanInstants(20.0, 90.0, 100.0, 60.0);
    HonestTargetAudit(LateSpanTrace(20.0, 90.0, 100.0), 60.0, 10.0, report);
  }

  lemma ClearCompletesInKept(kept: seq<Row>, late: seq<Row>, minTransit: real, dwell: real, stop: real)
    requires var b := Run(TargetStep(minTransit, dwell), TargetHorizon(minTransit), TARGET_INIT, kept + late);
             b.ready && b.stop == Some(stop)
    requires forall r :: r in late ==> r.t > stop
    ensures Run(ClearStep(Time, dwell), NeverClear, CLEAR_INIT, kept + late)
         == Run(ClearStep(Time, dwell), NeverClear, CLEAR_INIT, kept)
  {
    StopLiesInPrefix(TargetStep(minTransit, dwell), TargetHorizon(minTransit), TARGET_INIT, kept, late, stop);
    DetectorTrailsAuditor(kept, TARGET_INIT, minTransit, dwell);
    RunIgnoresTail(ClearStep(Time, dwell), NeverClear, CLEAR_INIT, kept, late);
  }

  lemma SliceKeepsClearTerminal(rows: seq<Row>, minTransit: real, dwell: real)
    requires TargetBoundary(rows, minTransit, dwell).ready
    ensures RawClearTerminal(Slice(rows, TargetBoundary(rows, minTransit, dwell).stop.value), dwell)
         == RawClearTerminal(rows, dwell)
  {
    var stop := TargetBoundary(rows, minTransit, dwell).stop.value;
    EventsSplitAtStop(IsLifecycleRow, rows, stop);
    ClearCompletesInKept(EventsOf(IsLifecycleRow, Slice(rows, stop)), Filter(Beyond(Time, stop), TargetEvents(rows)),
                         minTransit, dwell, stop);
    AuditorSeesTheSameRows(rows, dwell);
    AuditorSeesTheSameRows(Slice(rows, stop), dwell);
  }
}
