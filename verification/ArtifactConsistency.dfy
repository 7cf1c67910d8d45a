/** The artifact auditor, which derives the recovery and clear-terminal instants a second time from
    raw rows, with its own code, and compares them with the report. */
module ArtifactConsistency {
  import opened Options
  import opened RealMath
  import opened TraceRow
  import opened StableSort
  import opened EventScan
  import opened FastBoundary
  import opened ClearDwell

  const CPA_TOL_M := 1.0
  const TIME_TOL_S := 1.0

  function Least(xs: seq<real>): (m: real)
    requires xs != []
    ensures m in xs
    ensures forall x :: x in xs ==> m <= x
  {
    if |xs| == 1 then xs[0]
    else
      var rest := Least(xs[1..]);
      assert forall x :: x in xs ==> x == xs[0] || x in xs[1..];
      if xs[0] <= rest then xs[0] else rest
  }

  function Times(rows: seq<Row>): (ts: seq<real>)
    ensures |ts| == |rows|
    ensures forall k :: 0 <= k < |rows| ==> ts[k] == rows[k].t
  {
    seq(|rows|, k requires 0 <= k < |rows| => rows[k].t)
  }

  /** The auditor's own test for RECOVERY: the label reads as the float 7.0. */
  function ClaimsRecovery(r: Row): bool {
    IsBehaviorPlan(r) && ToFloat(r.behavior) == Some(7.0)
  }

  function RawRecoveryTime(rows: seq<Row>): Option<real> {
    var recoveries := Filter(ClaimsRecovery, rows);
    if recoveries == [] then None else Some(Least(Times(recoveries)))
  }

  function ScoringCpas(rows: seq<Row>): seq<real> {
    if rows == [] then []
    else if rows[0].topic == Scoring && ToFloat(rows[0].scoringCpa).Some?
    then [ToFloat(rows[0].scoringCpa).value] + ScoringCpas(rows[1..])
    else ScoringCpas(rows[1..])
  }

  /** A scoring row from which the distance `x` can be read. */
  ghost predicate ScoresCpa(r: Row, x: real) {
    r.topic == Scoring && ToFloat(r.scoringCpa) == Some(x)
  }

  /** Every readable scoring row is collected, and nothing else. */
  lemma {:induction false} ScoringCpasMeaning(rows: seq<Row>, x: real)
    ensures x in ScoringCpas(rows) <==> exists r :: r in rows && ScoresCpa(r, x)
  {
    if rows != [] {
      ScoringCpasMeaning(rows[1..], x);
      assert x in ScoringCpas(rows) <==> ScoresCpa(rows[0], x) || x in ScoringCpas(rows[1..]);
      if r :| r in rows && ScoresCpa(r, x) {
        assert r == rows[0] || r in rows[1..];
      }
    }
  }

  function RawMinCpa(rows: seq<Row>): Option<real> {
    var cpas := ScoringCpas(rows);
    if cpas == [] then None else Some(Least(cpas))
  }

  /** The raw CPA is the least distance that any scoring row reports. */
  ghost predicate IsLeastScored(cpa: Option<real>, rows: seq<Row>) {
    && (cpa.None? <==> forall r, x :: r in rows ==> !ScoresCpa(r, x))
    && (cpa.Some? ==> (exists r :: r in rows && ScoresCpa(r, cpa.value))
                      && forall r, x :: r in rows && ScoresCpa(r, x) ==> cpa.value <= x)
  }

  lemma RawMinCpaMeaning(rows: seq<Row>)
    ensures IsLeastScored(RawMinCpa(rows), rows)
  {
    var cpas := ScoringCpas(rows);
    forall r, x | r in rows && ScoresCpa(r, x) ensures x in cpas {
      ScoringCpasMeaning(rows, x);
    }
    if cpas != [] {
      ScoringCpasMeaning(rows, Least(cpas));
    }
    forall x | x in cpas ensures exists r :: r in rows && ScoresCpa(r, x) {
      ScoringCpasMeaning(rows, x);
    }
    assert cpas != [] ==> cpas[0] in cpas;
  }

  method ComputeRawMinCpa(rows: seq<Row>) returns (cpa: Option<real>)
    ensures cpa == RawMinCpa(rows) && IsLeastScored(cpa, rows)
  {
    RawMinCpaMeaning(rows);
    var cpas: seq<real> := [];
    var i := 0;
    while i < |rows|
      invariant i <= |rows|
      invariant cpas + ScoringCpas(rows[i..]) == ScoringCpas(rows)
    {
      var row := rows[i];
      i := i + 1;
      assert rows[i - 1..][1..] == rows[i..];
      if row.topic != Scoring {
        continue;
      }
      var value := ToFloat(row.scoringCpa);
      if value.Some? {
        cpas := cpas + [value.value];
      }
    }
    assert cpas == ScoringCpas(rows);
    if cpas == [] {
      return None;
    }
    return Some(Least(cpas));
  }

  // ----- The M6 clear terminal, by event time and by canonical time -----

  function CanonicalTime(r: Row): real {
    r.canonical
  }

  function ClearStepAt(clock: Row -> real, c: ClearState, r: Row, dwell: real): Step<ClearState, Option<Row>> {
    if !IsConstraint(r) then Go(c)
    else if DwellMet(c, r, clock(r), dwell) then Halt(Some(r))
    else Go(ClearNext(c, r, clock(r)))
  }

  function ClearStep(clock: Row -> real, dwell: real): (ClearState, Row) -> Step<ClearState, Option<Row>> {
    (c, r) => ClearStepAt(clock, c, r, dwell)
  }

  function NeverClear(c: ClearState): Option<Row> {
    None
  }

  function ClearSamples(clock: Row -> real, rows: seq<Row>): seq<Row> {
    Sort(clock, Filter(IsConstraint, rows))
  }

  /** The row at which the clear dwell is first complete. */
  function ClearTerminalRow(clock: Row -> real, rows: seq<Row>, dwell: real): Option<Row> {
    Run(ClearStep(clock, dwell), NeverClear, CLEAR_INIT, ClearSamples(clock, rows))
  }

  function RawClearTerminal(rows: seq<Row>, dwell: real): Option<real> {
    match ClearTerminalRow(Time, rows, dwell)
    case Some(r) => Some(r.t)
    case None => None
  }

  /** The strict auditor reports a record id, and nothing when the row has none. */
  function StrictClearTerminal(rows: seq<Row>, dwell: real): Option<(string, real)> {
    match ClearTerminalRow(CanonicalTime, rows, dwell)
    case Some(r) => if r.recordId == "" then None else Some((r.recordId, r.canonical))
    case None => None
  }

  lemma ClearStepFits(clock: Row -> real, e: seq<Row>, dwell: real, n: nat)
    requires n < |e|
    ensures DwellComplete(clock, e, dwell, n) ==> ClearStepAt(clock, ClearStateAt(clock, e, n), e[n], dwell).Halt?
    ensures !DwellComplete(clock, e, dwell, n) ==>
              ClearStepAt(clock, ClearStateAt(clock, e, n), e[n], dwell) == Go(ClearStateAt(clock, e, n + 1))
  {
    DwellMetIff(clock, e, n, dwell);
    ClearStateNext(clock, e, n);
  }

  /** The scan ends at the first row at which the clear dwell is complete. */
  lemma ClearScan(clock: Row -> real, e: seq<Row>, dwell: real)
    ensures var m := FirstDwell(clock, e, dwell, 0);
            && HaltIndex(ClearStep(clock, dwell), CLEAR_INIT, e) == m
            && Run(ClearStep(clock, dwell), NeverClear, CLEAR_INIT, e) == if m < |e| then Some(e[m]) else None
  {
    var m := FirstDwell(clock, e, dwell, 0);
    var states := seq(m + 1, k requires 0 <= k <= m => ClearStateAt(clock, e, k));
    forall k | 0 <= k <= m && k < |e|
      ensures k < m ==> ClearStepAt(clock, states[k], e[k], dwell) == Go(states[k + 1])
      ensures k == m ==> ClearStepAt(clock, states[k], e[k], dwell).Halt?
    {
      ClearStepFits(clock, e, dwell, k);
    }
    assert states[0] == CLEAR_INIT;
    HaltsAt(ClearStep(clock, dwell), e, states, m);
    RunAtHalt(ClearStep(clock, dwell), NeverClear, CLEAR_INIT, e);
  }

  /** The terminal row is the first M6 row, in clock order, at which the clear dwell is complete. */
  lemma ClearTerminalMeaning(clock: Row -> real, rows: seq<Row>, dwell: real)
    ensures var e := ClearSamples(clock, rows);
            var m := FirstDwell(clock, e, dwell, 0);
            ClearTerminalRow(clock, rows, dwell) == if m < |e| then Some(e[m]) else None
  {
    ClearScan(clock, ClearSamples(clock, rows), dwell);
  }

  /** The loop of `_raw_m6_clear_terminal` over its sorted samples. */
  method ScanClear(samples: seq<Row>, dwell: real) returns (terminal: Option<Row>)
    requires forall r :: r in samples ==> IsConstraint(r)
    ensures terminal == Run(ClearStep(Time, dwell), NeverClear, CLEAR_INIT, samples)
  {
    var sawConflict := false;
    var clearSince: Option<real> := None;
    var i := 0;
    while i < |samples|
      invariant i <= |samples|
      invariant Run(ClearStep(Time, dwell), NeverClear, ClearState(sawConflict, clearSince), samples[i..])
             == Run(ClearStep(Time, dwell), NeverClear, CLEAR_INIT, samples)
    {
      var row := samples[i];
      var now := Time(row);
      i := i + 1;
      assert samples[i - 1..][1..] == samples[i..];
      assert row in samples;
      if EncounterActive(row) {
        sawConflict, clearSince := true, None;
        continue;
      }
      if !sawConflict {
        continue;
      }
      if clearSince.None? {
        clearSince := Some(now);
      } else if now - clearSince.value >= dwell {
        return Some(row);
      }
    }
    return None;
  }

  method FindRawClearTerminal(rows: seq<Row>, dwell: real) returns (t: Option<real>)
    ensures t == RawClearTerminal(rows, dwell)
    ensures var e := ClearSamples(Time, rows);
            var m := FirstDwell(Time, e, dwell, 0);
            t == if m < |e| then Some(e[m].t) else None
  {
    var terminal := ScanClear(Sort(Time, Filter(IsConstraint, rows)), dwell);
    t := if terminal.None? then None else Some(terminal.value.t);
    ClearTerminalMeaning(Time, rows, dwell);
  }

  /** The loop of `_strict_raw_m6_clear_terminal`; it keeps the row that opened the spell. */
  method ScanStrictClear(samples: seq<Row>, dwell: real) returns (terminal: Option<Row>)
    requires forall r :: r in samples ==> IsConstraint(r)
    ensures terminal == Run(ClearStep(CanonicalTime, dwell), NeverClear, CLEAR_INIT, samples)
  {
    var sawConflict := false;
    var clearSince: Option<Row> := None;
    var i := 0;
    while i < |samples|
      invariant i <= |samples|
      invariant Run(ClearStep(CanonicalTime, dwell), NeverClear,
                    ClearState(sawConflict, if clearSince.None? then None else Some(clearSince.value.canonical)),
                    samples[i..])
             == Run(ClearStep(CanonicalTime, dwell), NeverClear, CLEAR_INIT, samples)
    {
      var row := samples[i];
      i := i + 1;
      assert samples[i - 1..][1..] == samples[i..];
      assert row in samples;
      if EncounterActive(row) {
        sawConflict, clearSince := true, None;
        continue;
      }
      if !sawConflict {
        continue;
      }
      if clearSince.None? {
        clearSince := Some(row);
      } else if row.canonical - clearSince.value.canonical >= dwell {
        return Some(row);
      }
    }
    return None;
  }

  method FindStrictClearTerminal(rows: seq<Row>, dwell: real) returns (t: Option<(string, real)>)
    ensures t == StrictClearTerminal(rows, dwell)
    ensures var e := ClearSamples(CanonicalTime, rows);
            var m := FirstDwell(CanonicalTime, e, dwell, 0);
            t == if m < |e| && e[m].recordId != "" then Some((e[m].recordId, e[m].canonical)) else None
  {
    var terminal := ScanStrictClear(Sort(CanonicalTime, Filter(IsConstraint, rows)), dwell);
    t := if terminal.None? || terminal.value.recordId == "" then None
         else Some((terminal.value.recordId, terminal.value.canonical));
    ClearTerminalMeaning(CanonicalTime, rows, dwell);
  }

  // ----- The comparison with the report -----

  datatype Report = Report(
    minCpa: Cell, firstRecovery: Cell, terminalTime: Cell, fastTerminal: string,
    clearDwell: Cell, overallPass: bool, stopReason: string)

  datatype Finding =
    | TraceCpaUnavailable
    | MinCpaMismatch
    | TraceTerminalUnavailable
    | TerminalTimeMismatch
    | TraceRecoveryUnavailable
    | RecoveryTimeMismatch

  datatype Audit = Audit(
    consistent: bool, complete: bool, findings: seq<Finding>,
    rawMinCpa: Option<real>, rawRecovery: Option<real>, rawTerminal: Option<real>)
  {
    predicate Passes() {
      consistent && complete
    }
  }

  function Distance(a: real, b: real): real {
    Abs(a - b)
  }

  /** A value the report leaves out, or one within `tol` of the raw value. */
  predicate Admissible(claim: Option<real>, raw: real, tol: real) {
    claim.None? || Distance(claim.value, raw) <= tol
  }

  predicate IsTargetResolution(report: Report) {
    report.fastTerminal == ENCOUNTER_CLEAR_WITH_OWN_HOLD
  }

  function AuditDwell(report: Report): real {
    match ToFloat(report.clearDwell) case Some(d) => d case None => 10.0
  }

  function RawTerminal(rows: seq<Row>, report: Report): Option<real> {
    if IsTargetResolution(report) then RawClearTerminal(rows, AuditDwell(report)) else RawRecoveryTime(rows)
  }

  function CpaFindings(raw: Option<real>, report: Report): seq<Finding> {
    if raw.None? then [TraceCpaUnavailable]
    else if Admissible(ToFloat(report.minCpa), raw.value, CPA_TOL_M) then []
    else [MinCpaMismatch]
  }

  function TimeFindings(raw: Option<real>, report: Report): seq<Finding> {
    var claim := ToFloat(if IsTargetResolution(report) then report.terminalTime else report.firstRecovery);
    if IsTargetResolution(report) then
      if raw.None? then
        if claim.None? then [TraceTerminalUnavailable] else [TraceTerminalUnavailable, TerminalTimeMismatch]
      else if claim.Some? && Admissible(claim, raw.value, TIME_TOL_S) then []
      else [TerminalTimeMismatch]
    else if raw.Some? then
      if Admissible(claim, raw.value, TIME_TOL_S) then [] else [RecoveryTimeMismatch]
    else if claim.Some? then [RecoveryTimeMismatch]
    else if !report.overallPass && report.stopReason != "" then [TraceRecoveryUnavailable]
    else [TraceRecoveryUnavailable, RecoveryTimeMismatch]
  }

  function Conclude(findings: seq<Finding>, rawMinCpa: Option<real>, rawRecovery: Option<real>,
                    rawTerminal: Option<real>): Audit
  {
    Audit(
      MinCpaMismatch !in findings && RecoveryTimeMismatch !in findings && TerminalTimeMismatch !in findings,
      TraceRecoveryUnavailable !in findings && TraceTerminalUnavailable !in findings && rawMinCpa.Some?,
      findings, rawMinCpa, rawRecovery, rawTerminal)
  }

  function AuditOf(rows: seq<Row>, report: Report): Audit {
    Conclude(CpaFindings(RawMinCpa(rows), report) + TimeFindings(RawTerminal(rows, report), report),
             RawMinCpa(rows), RawRecoveryTime(rows), RawTerminal(rows, report))
  }

  /** The CPA half of `check_trace_artifacts`. */
  method CompareCpa(report: Report, rawMinCpa: Option<real>) returns (findings: seq<Finding>)
    ensures findings == CpaFindings(rawMinCpa, report)
  {
    findings := [];
    var reportCpa := ToFloat(report.minCpa);
    if rawMinCpa.None? {
      findings := findings + [TraceCpaUnavailable];
    } else if reportCpa.Some? && Distance(reportCpa.value, rawMinCpa.value) > CPA_TOL_M {
      findings := findings + [MinCpaMismatch];
    }
  }

  /** The time half of `check_trace_artifacts`. */
  method CompareTimes(report: Report, rawTerminal: Option<real>) returns (findings: seq<Finding>)
    ensures findings == TimeFindings(rawTerminal, report)
  {
    findings := [];
    var reportRecovery := ToFloat(report.firstRecovery);
    if report.fastTerminal == ENCOUNTER_CLEAR_WITH_OWN_HOLD {
      var reportTerminal := ToFloat(report.terminalTime);
      if rawTerminal.None? {
        findings := findings + [TraceTerminalUnavailable];
        if reportTerminal.Some? {
          findings := findings + [TerminalTimeMismatch];
        }
      } else if reportTerminal.None? || Distance(reportTerminal.value, rawTerminal.value) > TIME_TOL_S {
        findings := findings + [TerminalTimeMismatch];
      }
    } else if rawTerminal.None? {
      if reportRecovery.Some? {
        findings := findings + [RecoveryTimeMismatch];
      } else if !report.overallPass && report.stopReason != "" {
        findings := findings + [TraceRecoveryUnavailable];
      } else {
        findings := findings + [TraceRecoveryUnavailable];
        findings := findings + [RecoveryTimeMismatch];
      }
    } else if reportRecovery.Some? {
      if Distance(reportRecovery.value, rawTerminal.value) > TIME_TOL_S {
        findings := findings + [RecoveryTimeMismatch];
      }
    }
  }

  /** `check_trace_artifacts` with its default tolerances. */
  method CheckTraceArtifacts(rows: seq<Row>, report: Report) returns (a: Audit)
    ensures a == AuditOf(rows, report)
  {
    var rawMinCpa := ComputeRawMinCpa(rows);
    var rawRecovery := RawRecoveryTime(rows);
    var clearDwell := ToFloat(report.clearDwell);
    var rawTerminal := rawRecovery;
    if report.fastTerminal == ENCOUNTER_CLEAR_WITH_OWN_HOLD {
      rawTerminal := FindRawClearTerminal(rows, if clearDwell.None? then 10.0 else clearDwell.value);
    }
    assert rawTerminal == RawTerminal(rows, report);
    var cpaFindings := CompareCpa(report, rawMinCpa);
    var timeFindings := CompareTimes(report, rawTerminal);
    return Conclude(cpaFindings + timeFindings, rawMinCpa, rawRecovery, rawTerminal);
  }

  /** The gate passes exactly when both raw instants exist and the report contradicts neither. */
  lemma AuditPassesIff(rows: seq<Row>, report: Report)
    ensures AuditOf(rows, report).Passes() <==>
              && RawMinCpa(rows).Some?
              && Admissible(ToFloat(report.minCpa), RawMinCpa(rows).value, CPA_TOL_M)
              && RawTerminal(rows, report).Some?
              && (if IsTargetResolution(report)
                  then ToFloat(report.terminalTime).Some?
                       && Admissible(ToFloat(report.terminalTime), RawTerminal(rows, report).value, TIME_TOL_S)
                  else Admissible(ToFloat(report.firstRecovery), RawTerminal(rows, report).value, TIME_TOL_S))
  {
  }

  /** The claimed instant and the raw one: absent, contradicted, or within the tolerance. */
  ghost predicate TimesFit(raw: Option<real>, report: Report) {
    if IsTargetResolution(report) then
      var claim := ToFloat(report.terminalTime);
      if raw.None? then claim.None? else claim.Some? && Distance(claim.value, raw.value) <= TIME_TOL_S
    else
      var claim := ToFloat(report.firstRecovery);
      if raw.None? then claim.None? && !report.overallPass && report.stopReason != ""
      else claim.None? || Distance(claim.value, raw.value) <= TIME_TOL_S
  }

  lemma FindingsOfTimes(raw: Option<real>, report: Report)
    ensures var f := TimeFindings(raw, report);
            && (RecoveryTimeMismatch !in f && TerminalTimeMismatch !in f <==> TimesFit(raw, report))
            && (TraceRecoveryUnavailable !in f && TraceTerminalUnavailable !in f <==>
                  raw.Some? || (!IsTargetResolution(report) && ToFloat(report.firstRecovery).Some?))
            && MinCpaMismatch !in f
  {
  }

  /** The report is consistent exactly when it contradicts no raw value; a missing recovery is no contradiction
      if the report claims none and is an explicit non-pass. */
  lemma ConsistentIff(rows: seq<Row>, report: Report)
    ensures AuditOf(rows, report).consistent <==>
              && (RawMinCpa(rows).Some? ==> Admissible(ToFloat(report.minCpa), RawMinCpa(rows).value, CPA_TOL_M))
              && TimesFit(RawTerminal(rows, report), report)
  {
    var c, f := CpaFindings(RawMinCpa(rows), report), TimeFindings(RawTerminal(rows, report), report);
    FindingsOfTimes(RawTerminal(rows, report), report);
    assert forall x :: x in c + f <==> x in c || x in f;
  }

  /** The evidence is complete exactly when both raw values exist; only a recovery that is claimed without raw
      evidence is counted as a contradiction instead. */
  lemma CompleteIff(rows: seq<Row>, report: Report)
    ensures AuditOf(rows, report).complete <==>
              && RawMinCpa(rows).Some?
              && (RawTerminal(rows, report).Some?
                  || (!IsTargetResolution(report) && ToFloat(report.firstRecovery).Some?))
  {
    var c, f := CpaFindings(RawMinCpa(rows), report), TimeFindings(RawTerminal(rows, report), report);
    FindingsOfTimes(RawTerminal(rows, report), report);
    assert forall x :: x in c + f <==> x in c || x in f;
  }
}
