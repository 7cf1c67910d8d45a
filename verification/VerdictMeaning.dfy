/** The verdict of `evaluate_fast_trace`, read off the raw rows, the scenario, the report and the module
    oracles: when it passes, and which check it blames. */
module VerdictMeaning {
  import opened Options
  import opened RealMath
  import opened TraceRow
  import opened StableSort
  import opened FastBoundary
  import opened OwnLifecycle
  import opened EventScan
  import opened ArtifactConsistency
  import opened AuditorAgreement
  import opened FastEvaluator
  import opened FastVerdictProofs
  import opened EvaluatorSlicing
  import opened TargetActor
  import opened PassedRuns

  /** The report's minimum CPA, or the scenario's DCPA when the report gives none, keeps the floor. */
  ghost predicate CpaKeepsFloor(scenario: Scenario, report: Report) {
    var floor := ToFloat(scenario.cpaFloor);
    var observed := if ToFloat(report.minCpa).Some? then ToFloat(report.minCpa) else ToFloat(scenario.dcpa);
    floor.Some? && observed.Some? && floor.value <= observed.value
  }

  /** In front of the first demand a stand-on own ship held the heading of its first sample. */
  ghost predicate StoodOn(rows: seq<Row>, stop: Option<real>, ownRole: string) {
    var c, own := ContractOf(Demands(rows, stop)), OwnShipRows(rows);
    ownRole == "STAND_ON" && c.Turning? && own != [] && own[0].t <= c.onset && ToFloat(own[0].heading).Some? ==>
      forall r :: r in rows && IsOwnShip(r) && r.t <= c.onset && ToFloat(r.heading).Some? ==>
        Abs(Turn(ToFloat(r.heading).value, ToFloat(own[0].heading).value)) <= HOLD_LIMIT_DEG
  }

  /** An own-ship sample up to the stop that carries a heading. */
  ghost predicate OwnSample(r: Row, stop: real) {
    IsOwnShip(r) && r.t <= stop && ToFloat(r.heading).Some?
  }

  /** Up to the stop own ship held the first heading it reported. */
  ghost predicate HeldCourse(rows: seq<Row>, stop: real) {
    var own := Filter(HasHeading, OwnShipRows(rows));
    own != [] && own[0].t <= stop ==>
      (assert HasHeading(own[0]) by { assert own[0] in own; }
       forall r :: r in rows && OwnSample(r, stop) ==>
         Abs(Turn(ToFloat(r.heading).value, ToFloat(own[0].heading).value)) <= HOLD_LIMIT_DEG)
  }

  // ----- The parts -----

  lemma StoodOnIff(rows: seq<Row>, onset: real)
    ensures StandOnHolds(rows, Some(onset), "STAND_ON") <==>
              (var own := OwnShipRows(rows);
               own != [] && own[0].t <= onset && ToFloat(own[0].heading).Some? ==>
                 forall r :: r in rows && IsOwnShip(r) && r.t <= onset && ToFloat(r.heading).Some? ==>
                   Abs(Turn(ToFloat(r.heading).value, ToFloat(own[0].heading).value)) <= HOLD_LIMIT_DEG)
  {
    var own := OwnShipRows(rows);
    var pre := Filter(AtMost(Time, onset), own);
    SortSorted(Time, Filter(IsOwnShip, rows));
    forall r | r in own ensures AtMost(Time, onset)(r) == (r.t <= onset) {
      UpToStop(r, onset);
    }
    assert forall r :: r in pre <==> r in rows && IsOwnShip(r) && r.t <= onset;
    if own != [] && own[0].t <= onset {
      assert own[0] in own && pre[0] == own[0];
    } else if own != [] {
      forall r | r in own ensures own[0].t <= r.t {
        var k :| 0 <= k < |own| && own[k] == r;
        assert Time(own[0]) <= Time(own[k]);
      }
    }
  }

  lemma StandOnIff(rows: seq<Row>, stop: Option<real>, ownRole: string)
    ensures StandOnHolds(rows, if ContractOf(Demands(rows, stop)).Turning?
                               then Some(ContractOf(Demands(rows, stop)).onset) else None, ownRole)
       <==> StoodOn(rows, stop, ownRole)
  {
    var c := ContractOf(Demands(rows, stop));
    if c.Turning? {
      StoodOnIff(rows, c.onset);
    }
  }

  lemma {:induction false} OwnShipWithinStop(rows: seq<Row>, stop: real)
    ensures Filter(OwnShipWithin(Some(stop)), rows) == Filter(AtMost(Time, stop), Filter(IsOwnShip, rows))
  {
    if rows != [] {
      OwnShipWithinStop(rows[1..], stop);
      UpToStop(rows[0], stop);
      var rest := Filter(IsOwnShip, rows[1..]);
      assert ([rows[0]] + rest)[1..] == rest;
    }
  }

  /** The samples `_own_hold_through_stop` looks at are the heading samples up to the stop, in time order. */
  lemma HeldSamples(rows: seq<Row>, stop: real)
    ensures Filter(HasHeading, Sort(Time, Filter(OwnShipWithin(Some(stop)), rows)))
         == Filter(AtMost(Time, stop), Filter(HasHeading, OwnShipRows(rows)))
  {
    OwnShipWithinStop(rows, stop);
    FilterCommutesWithSort(Time, AtMost(Time, stop), Filter(IsOwnShip, rows));
    FiltersCommute(HasHeading, AtMost(Time, stop), OwnShipRows(rows));
  }

  lemma FirstUpTo(s: seq<Row>, stop: real)
    requires Sorted(Time, s)
    ensures Filter(AtMost(Time, stop), s) != [] <==> s != [] && s[0].t <= stop
    ensures Filter(AtMost(Time, stop), s) != [] ==> Filter(AtMost(Time, stop), s)[0] == s[0]
  {
    if s != [] {
      UpToStop(s[0], stop);
      if s[0].t > stop {
        forall r | r in s ensures !AtMost(Time, stop)(r) {
          var k :| 0 <= k < |s| && s[k] == r;
          assert Time(s[0]) <= Time(s[k]);
        }
      }
    }
  }

  lemma OwnHoldsIff(rows: seq<Row>, stop: real)
    ensures OwnHolds(rows, Some(stop)) <==> HeldCourse(rows, stop)
  {
    var own := Filter(HasHeading, OwnShipRows(rows));
    SortSorted(Time, Filter(IsOwnShip, rows));
    FilterSorted(Time, HasHeading, OwnShipRows(rows));
    HeldSamples(rows, stop);
    FirstUpTo(own, stop);
    forall r | r in rows ensures AtMost(Time, stop)(r) == (r.t <= stop) {
      UpToStop(r, stop);
    }
    assert forall r :: r in Filter(AtMost(Time, stop), own) <==> r in rows && OwnSample(r, stop);
  }

  /** The base heading is that of the last sample up to `base`; if there is none, or it cannot be read, that of
      the first sample of all. */
  lemma BaseHeadingMeaning(own: seq<Row>, base: real)
    requires Sorted(Time, own)
    ensures own == [] ==> BaseHeading(own, base).None?
    ensures own != [] && own[0].t > base ==> BaseHeading(own, base) == ToFloat(own[0].heading)
    ensures forall k :: 0 <= k < |own| && own[k].t <= base && (k + 1 < |own| ==> base < own[k + 1].t) ==>
              BaseHeading(own, base)
              == if ToFloat(own[k].heading).Some? then ToFloat(own[k].heading) else ToFloat(own[0].heading)
  {
    FirstUpTo(own, base);
    forall k | 0 <= k < |own| && own[k].t <= base && (k + 1 < |own| ==> base < own[k + 1].t)
      ensures BaseHeading(own, base)
           == if ToFloat(own[k].heading).Some? then ToFloat(own[k].heading) else ToFloat(own[0].heading)
    {
      BaseHeadingAt(own, base, k);
    }
  }

  lemma BaseHeadingAt(own: seq<Row>, base: real, k: nat)
    requires Sorted(Time, own) && k < |own| && own[k].t <= base && (k + 1 < |own| ==> base < own[k + 1].t)
    ensures BaseHeading(own, base)
         == if ToFloat(own[k].heading).Some? then ToFloat(own[k].heading) else ToFloat(own[0].heading)
  {
    var pre := Filter(AtMost(Time, base), own);
    PrefixUpTo(own, base, k);
    assert pre[|pre| - 1] == own[k];
  }

  lemma InOrder(own: seq<Row>, i: nat, k: nat)
    requires Sorted(Time, own) && i <= k < |own|
    ensures own[i].t <= own[k].t
  {
    assert Time(own[i]) == own[i].t && Time(own[k]) == own[k].t;
  }

  lemma UpToAll(own: seq<Row>, base: real, k: nat)
    requires Sorted(Time, own) && k < |own| && own[k].t <= base
    ensures Filter(AtMost(Time, base), own[..k + 1]) == own[..k + 1]
  {
    var a := own[..k + 1];
    forall r | r in a ensures AtMost(Time, base)(r) {
      var i :| 0 <= i < |a| && a[i] == r;
      InOrder(own, i, k);
      UpToStop(r, base);
    }
    FilterKeepsAll(AtMost(Time, base), a);
  }

  lemma BeyondNone(own: seq<Row>, base: real, k: nat)
    requires Sorted(Time, own) && k <= |own| && (k < |own| ==> base < own[k].t)
    ensures forall r :: r in own[k..] ==> !AtMost(Time, base)(r)
  {
    var b := own[k..];
    forall r | r in b ensures !AtMost(Time, base)(r) {
      var i :| 0 <= i < |b| && b[i] == r;
      InOrder(own, k, k + i);
      UpToStop(r, base);
    }
  }

  lemma FilterOfPrefix(p: Row -> bool, s: seq<Row>, a: seq<Row>, b: seq<Row>)
    requires s == a + b && Filter(p, a) == a && forall r :: r in b ==> !p(r)
    ensures Filter(p, s) == a
  {
    FilterIgnoresTail(p, a, b);
  }

  lemma PrefixUpTo(own: seq<Row>, base: real, k: nat)
    requires Sorted(Time, own) && k < |own| && own[k].t <= base && (k + 1 < |own| ==> base < own[k + 1].t)
    ensures Filter(AtMost(Time, base), own) == own[..k + 1]
  {
    UpToAll(own, base, k);
    BeyondNone(own, base, k + 1);
    FilterOfPrefix(AtMost(Time, base), own, own[..k + 1], own[k + 1..]);
  }

  /** The turn of `r` away from the heading `base`, to the demanded side. */
  ghost predicate TurnedBy(r: Row, base: real, direction: string, degrees: real) {
    && ToFloat(r.heading).Some?
    && if direction == "STARBOARD" then Turn(ToFloat(r.heading).value, base) >= degrees
       else -Turn(ToFloat(r.heading).value, base) >= degrees
  }

  /** The realized alteration reaches a positive angle exactly when one own-ship sample of the window has turned
      that far from the base heading. */
  lemma RealizedIff(rows: seq<Row>, base: real, onset: real, stop: Option<real>, direction: string, degrees: real)
    requires degrees > 0.0
    ensures var h := BaseHeading(OwnShipRows(rows), base);
            RealizedTurn(rows, base, onset, stop, direction) >= degrees <==>
              h.Some? && exists r :: r in rows && IsOwnShip(r) && onset <= r.t && Within(r, stop)
                                     && TurnedBy(r, h.value, direction, degrees)
  {
    var own := OwnShipRows(rows);
    var h := BaseHeading(own, base);
    if h.Some? {
      var window, sign := Filter(InWindow(onset, stop), own), SignOf(direction);
      forall r ensures SignedTurn(r, h.value, sign) >= degrees <==> TurnedBy(r, h.value, direction, degrees) {
      }
      forall r ensures r in window <==> r in rows && IsOwnShip(r) && onset <= r.t && Within(r, stop) {
      }
      var m := LargestTurn(window, h.value, sign);
      if r :| r in window && TurnedBy(r, h.value, direction, degrees) {
        assert SignedTurn(r, h.value, sign) <= m;
      }
      if m >= degrees {
        var r :| r in window && SignedTurn(r, h.value, sign) == m;
        assert TurnedBy(r, h.value, direction, degrees);
      }
    }
  }

  /** The default of a missing branch or counter never matters: a route is tactical when both can be read, the
      branch is 1, 2 or 3, and there are waypoints. */
  lemma TacticalRouteIff(r: Row)
    ensures IsTacticalRoute(r) <==>
              && r.topic == AvoidancePlan
              && (ToInt(r.commitBranch) == Some(1) || ToInt(r.commitBranch) == Some(2)
                  || ToInt(r.commitBranch) == Some(3))
              && ToInt(r.waypointCount).Some? && ToInt(r.waypointCount).value > 0
  {
  }

  // ----- The checks -----

  ghost predicate TruthLocked(s: Scenario) {
    s.compiledRule != "" && s.ownRole != "" && s.classification != "" && s.truthLockOk
  }

  /** The oracles that every scenario runs. */
  ghost predicate SharedCheck(c: Check, slice: seq<Row>, s: Scenario, report: Report, o: Oracles) {
    match c
    case ScenarioTruthLocked => TruthLocked(s)
    case M1MrmAuthorityValid => o.m1(slice).passed
    case M2GeometryValid => o.m2(s, Filter(IsWorldRow, slice), Filter(IsOwnShip, slice)).passed
    case M6RuleRoleDirectionValid => o.m6(s, slice).passed
    case M7CheckerClosed => o.m7(slice).passed
    case ScenarioCpaAcceptanceMet => CpaKeepsFloor(s, report)
    case GArtConsistent | GArtComplete => AuditOf(slice, report).Passes()
    case _ => true
  }

  /** The checks that both kinds of run share. */
  predicate IsShared(c: Check) {
    match c
    case ScenarioTruthLocked | M1MrmAuthorityValid | M2GeometryValid | M6RuleRoleDirectionValid | M7CheckerClosed
       | ScenarioCpaAcceptanceMet | GArtConsistent | GArtComplete => true
    case _ => false
  }

  /** Check `c` of an own-recovery run whose boundary `b` is ready. */
  ghost predicate OwnCheck(c: Check, rows: seq<Row>, b: Boundary, s: Scenario, report: Report, o: Oracles)
    requires b.ready && b.avoidanceStart.Some?
  {
    var slice := FastSlice(rows, b);
    match c
    case StandOnHoldBeforeTAct => StoodOn(rows, b.stop, s.ownRole)
    case TargetActorContractRealized => TargetComplies(rows, s, b.stop)
    case DynamicActionRealized => DemandMet(rows, b.avoidanceStart.value, b.stop, o.round3)
    case M4LifecycleValid => o.m4(slice, Filter(IsConstraint, slice)).passed
    case M5ExecutableRouteValid => o.m5(slice).passed
    case GncHandoffIdentityValid => o.l4(slice, b).passed
    case _ => SharedCheck(c, slice, s, report, o)
  }

  /** Check `c` of a target-resolution run whose boundary `b` is ready. */
  ghost predicate TargetCheck(c: Check, rows: seq<Row>, b: Boundary, s: Scenario, report: Report, o: Oracles)
    requires b.ready && b.stop.Some? && b.transitStart.Some? && b.recoveryStart.Some?
  {
    var slice := FastSlice(rows, b);
    match c
    case TransitPrefixObserved => b.recoveryStart.value - b.transitStart.value >= s.minTransit
    case StandOnHoldBeforeTAct => HeldCourse(rows, b.stop.value)
    case TargetActorContractRealized | DynamicActionRealized => TargetComplies(rows, s, b.stop)
    case M5ExecutableRouteValid => forall r :: r in slice ==> !IsTacticalRoute(r)
    case GncHandoffIdentityValid =>
      forall r :: r in slice && r.topic == ExecutionStatus ==> !(r.accepted && "m5-" <= r.planId)
    case _ => SharedCheck(c, slice, s, report, o)
  }

  lemma OwnEvidence(rows: seq<Row>, s: Scenario, b: Boundary, round3: real -> real)
    requires !IsTarget(s) && b.stop.Some? && b.avoidanceStart.Some? && RecoveryStop(b) == b.stop
    ensures var e := Gather(rows, s, b, round3);
            && e.boundary == b
            && (e.standOnOk <==> StoodOn(rows, b.stop, s.ownRole))
            && (e.targetOk <==> TargetComplies(rows, s, b.stop))
            && (e.dynamicOk <==> DemandMet(rows, b.avoidanceStart.value, b.stop, round3))
            && e.cpaOk == CpaAccepted(s)
  {
    StandOnIff(rows, b.stop, s.ownRole);
    TargetCompliesIff(rows, s, b.stop, round3);
    DynamicCheck(rows, s, b, round3);
    GatherKeeps(rows, s, b, round3);
    OwnGathered(rows, s, b, round3);
  }

  lemma OwnGathered(rows: seq<Row>, s: Scenario, b: Boundary, round3: real -> real)
    requires !IsTarget(s) && b.stop.Some?
    ensures var e, c := Gather(rows, s, b, round3), ContractOf(Demands(rows, b.stop));
            && e.standOnOk == StandOnHolds(rows, if c.Turning? then Some(c.onset) else None, s.ownRole)
            && e.targetOk == TargetContract(rows, s, b.stop, round3).passed
  {
  }

  lemma CompliesAlike(rows: seq<Row>, scenario: Scenario, report: Report, limit: Option<real>, round3: real -> real)
    ensures TargetComplies(rows, WithReportCpa(scenario, report), limit) <==> TargetComplies(rows, scenario, limit)
  {
    var s := WithReportCpa(scenario, report);
    CpaLeavesTheRest(rows, scenario, report, limit, round3);
    TargetCompliesIff(rows, s, limit, round3);
    TargetCompliesIff(rows, scenario, limit, round3);
  }

  lemma SharedChecksHold(rows: seq<Row>, b: Boundary, scenario: Scenario, report: Report, o: Oracles, c: Check)
    requires IsShared(c)
    ensures var s := WithReportCpa(scenario, report);
            Holds(c, Gather(rows, s, b, o.round3), s, RunOracles(FastSlice(rows, b), b, scenario, report, o))
            <==> SharedCheck(c, FastSlice(rows, b), scenario, report, o)
  {
    var s := WithReportCpa(scenario, report);
    GatherKeeps(rows, s, b, o.round3);
    SharedHolds(FastSlice(rows, b), b, Gather(rows, s, b, o.round3), scenario, report, o, c);
  }

  lemma SharedHolds(slice: seq<Row>, b: Boundary, e: Evidence, scenario: Scenario, report: Report, o: Oracles, c: Check)
    requires IsShared(c) && e.cpaOk == CpaAccepted(WithReportCpa(scenario, report))
    ensures Holds(c, e, WithReportCpa(scenario, report), RunOracles(slice, b, scenario, report, o))
       <==> SharedCheck(c, slice, scenario, report, o)
  {
  }

  lemma OwnSpecificHolds(rows: seq<Row>, b: Boundary, e: Evidence, scenario: Scenario, report: Report, o: Oracles,
                         c: Check)
    requires !IsTarget(scenario) && !IsShared(c)
    requires b.ready && b.avoidanceStart.Some? && b.TransitDuration() >= scenario.minTransit
    requires e.boundary == b
    requires e.standOnOk <==> StoodOn(rows, b.stop, scenario.ownRole)
    requires e.targetOk <==> TargetComplies(rows, scenario, b.stop)
    requires e.dynamicOk <==> DemandMet(rows, b.avoidanceStart.value, b.stop, o.round3)
    ensures Holds(c, e, WithReportCpa(scenario, report), RunOracles(FastSlice(rows, b), b, scenario, report, o))
       <==> OwnCheck(c, rows, b, scenario, report, o)
  {
  }

  lemma OwnChecksHold(rows: seq<Row>, b: Boundary, scenario: Scenario, report: Report, o: Oracles, c: Check)
    requires !IsTarget(scenario) && b == OwnBoundary(rows, scenario.minTransit)
    requires b.ready && b.avoidanceStart.Some?
    ensures var s := WithReportCpa(scenario, report);
            Holds(c, Gather(rows, s, b, o.round3), s, RunOracles(FastSlice(rows, b), b, scenario, report, o))
            <==> OwnCheck(c, rows, b, scenario, report, o)
  {
    var s := WithReportCpa(scenario, report);
    if IsShared(c) {
      SharedChecksHold(rows, b, scenario, report, o, c);
      OwnChecksShare(c, rows, b, scenario, report, o);
    } else {
      ReadyBoundaryIsOrdered(rows, scenario.minTransit);
      OwnEvidence(rows, s, b, o.round3);
      CompliesAlike(rows, scenario, report, b.stop, o.round3);
      OwnSpecificHolds(rows, b, Gather(rows, s, b, o.round3), scenario, report, o, c);
    }
  }

  lemma OwnChecksShare(c: Check, rows: seq<Row>, b: Boundary, s: Scenario, report: Report, o: Oracles)
    requires b.ready && b.avoidanceStart.Some? && IsShared(c)
    ensures OwnCheck(c, rows, b, s, report, o) <==> SharedCheck(c, FastSlice(rows, b), s, report, o)
  {
  }

  lemma TargetChecksShare(c: Check, rows: seq<Row>, b: Boundary, s: Scenario, report: Report, o: Oracles)
    requires b.ready && b.stop.Some? && b.transitStart.Some? && b.recoveryStart.Some? && IsShared(c)
    ensures TargetCheck(c, rows, b, s, report, o) <==> SharedCheck(c, FastSlice(rows, b), s, report, o)
  {
  }

  lemma TargetReadyInstants(rows: seq<Row>, minTransit: real, dwell: real)
    ensures var b := TargetBoundary(rows, minTransit, dwell);
            b.ready ==> b.transitStart.Some? && b.recoveryStart.Some? && b.stop.Some?
                        && b.TransitDuration() == b.recoveryStart.value - b.transitStart.value
  {
    RunAtHalt(TargetStep(minTransit, dwell), TargetHorizon(minTransit), TARGET_INIT, TargetEvents(rows));
  }

  lemma TargetEvidence(rows: seq<Row>, s: Scenario, b: Boundary, round3: real -> real)
    requires IsTarget(s) && b.stop.Some?
    ensures var e := Gather(rows, s, b, round3);
            && e.boundary == b
            && (e.standOnOk <==> HeldCourse(rows, b.stop.value))
            && (e.targetOk <==> TargetComplies(rows, s, b.stop))
            && e.dynamicOk == e.targetOk
            && e.cpaOk == CpaAccepted(s)
            && e.noRoute == NoTacticalRoute(rows, b.stop)
            && e.noTakeover == NoGncTakeover(rows, b.stop)
  {
    OwnHoldsIff(rows, b.stop.value);
    assert b.stop == Some(b.stop.value);
    TargetCompliesIff(rows, s, b.stop, round3);
    GatherKeeps(rows, s, b, round3);
    TargetGathered(rows, s, b, round3);
    TargetDynamic(rows, s, b, round3);
  }

  lemma TargetDynamic(rows: seq<Row>, s: Scenario, b: Boundary, round3: real -> real)
    requires IsTarget(s)
    ensures Gather(rows, s, b, round3).dynamicOk == Gather(rows, s, b, round3).targetOk
  {
  }

  lemma TargetSpecificHolds(rows: seq<Row>, b: Boundary, e: Evidence, scenario: Scenario, report: Report, o: Oracles,
                            c: Check)
    requires IsTarget(scenario) && !IsShared(c)
    requires b.ready && b.stop.Some? && b.transitStart.Some? && b.recoveryStart.Some?
    requires b.TransitDuration() == b.recoveryStart.value - b.transitStart.value
    requires e.boundary == b
    requires e.standOnOk <==> HeldCourse(rows, b.stop.value)
    requires (e.targetOk <==> TargetComplies(rows, scenario, b.stop)) && e.dynamicOk == e.targetOk
    requires e.noRoute == NoTacticalRoute(rows, b.stop) && e.noTakeover == NoGncTakeover(rows, b.stop)
    ensures Holds(c, e, WithReportCpa(scenario, report), RunOracles(FastSlice(rows, b), b, scenario, report, o))
       <==> TargetCheck(c, rows, b, scenario, report, o)
  {
    SliceMembers(rows, b.stop.value);
  }

  lemma TargetChecksHold(rows: seq<Row>, scenario: Scenario, report: Report, o: Oracles, c: Check)
    requires IsTarget(scenario) && BoundaryFor(rows, scenario).Ok?
    requires var b := BoundaryFor(rows, scenario).value;
             b.ready && b.stop.Some? && b.transitStart.Some? && b.recoveryStart.Some?
    ensures var b, s := BoundaryFor(rows, scenario).value, WithReportCpa(scenario, report);
            Holds(c, Gather(rows, s, b, o.round3), s, RunOracles(FastSlice(rows, b), b, scenario, report, o))
            <==> TargetCheck(c, rows, b, scenario, report, o)
  {
    var b, s := BoundaryFor(rows, scenario).value, WithReportCpa(scenario, report);
    if IsShared(c) {
      SharedChecksHold(rows, b, scenario, report, o, c);
      TargetChecksShare(c, rows, b, scenario, report, o);
    } else {
      TargetReadyInstants(rows, scenario.minTransit, scenario.clearDwell);
      TargetEvidence(rows, s, b, o.round3);
      CompliesAlike(rows, scenario, report, b.stop, o.round3);
      TargetSpecificHolds(rows, b, Gather(rows, s, b, o.round3), scenario, report, o, c);
    }
  }

  // ----- The verdict -----

  ghost function OwnChecks(rows: seq<Row>, b: Boundary, s: Scenario, report: Report, o: Oracles): Check -> bool
    requires b.ready && b.avoidanceStart.Some?
  {
    (c: Check) => OwnCheck(c, rows, b, s, report, o)
  }

  ghost function TargetChecks(rows: seq<Row>, b: Boundary, s: Scenario, report: Report, o: Oracles): Check -> bool
    requires b.ready && b.stop.Some? && b.transitStart.Some? && b.recoveryStart.Some?
  {
    (c: Check) => TargetCheck(c, rows, b, s, report, o)
  }

  /** The verdict names the stage and the code of check `n` of the chain. */
  ghost predicate Blames(v: Verdict, n: int, b: Boundary, contract: Contract, s: Scenario) {
    && 0 <= n < |CHAIN|
    && v.firstBrokenStage == StageOf(CHAIN[n])
    && v.firstFailure == Some(FailureOf(CHAIN[n], b, contract, s))
  }

  lemma ReadyNeeded(e: Evidence, s: Scenario, m: ModuleResults)
    requires !e.boundary.ready
    ensures !Compose(e, s, m).passed
  {
    VerdictFollowsTheChain(e, s, m);
    assert !HoldsIn(e, s, m)(FirstRecoveryBoundaryObserved);
  }

  /** What a verdict on a ready boundary comes to, for the readings `checks` of its checks. */
  ghost predicate DecidedBy(v: Verdict, checks: Check -> bool, b: Boundary, contract: Contract, s: Scenario) {
    && (v.passed <==> forall c :: checks(c))
    && (!v.passed ==> exists n :: IsFirstFailure(n, CHAIN, checks) && Blames(v, n, b, contract, s))
  }

  /** A composed verdict, for any reading `checks` of its seventeen checks. */
  lemma VerdictByChecks(e: Evidence, s: Scenario, m: ModuleResults, checks: Check -> bool)
    requires forall c :: Holds(c, e, s, m) <==> checks(c)
    ensures DecidedBy(Compose(e, s, m), checks, e.boundary, e.contract, s)
  {
    var v, holds := Compose(e, s, m), HoldsIn(e, s, m);
    VerdictFollowsTheChain(e, s, m);
    assert forall c :: holds(c) <==> checks(c);
    if !v.passed {
      var n :| IsFirstFailure(n, CHAIN, holds) && v.firstBrokenStage == StageOf(CHAIN[n])
               && v.firstFailure == Some(FailureOf(CHAIN[n], e.boundary, e.contract, s));
      assert IsFirstFailure(n, CHAIN, checks) && Blames(v, n, e.boundary, e.contract, s);
    }
  }

  lemma OwnReadyVerdict(rows: seq<Row>, b: Boundary, scenario: Scenario, report: Report, o: Oracles, v: Verdict)
    requires !IsTarget(scenario) && b == OwnBoundary(rows, scenario.minTransit)
    requires b.ready && b.avoidanceStart.Some? && IsComposed(v, rows, b, scenario, report, o)
    ensures DecidedBy(v, OwnChecks(rows, b, scenario, report, o), b, ContractOf(Demands(rows, b.stop)), scenario)
  {
    var s := WithReportCpa(scenario, report);
    var e, m := Gather(rows, s, b, o.round3), RunOracles(FastSlice(rows, b), b, scenario, report, o);
    var checks := OwnChecks(rows, b, scenario, report, o);
    forall c ensures Holds(c, e, s, m) <==> checks(c) {
      OwnChecksHold(rows, b, scenario, report, o, c);
    }
    GatherKeeps(rows, s, b, o.round3);
    GatheredContract(rows, s, b, o.round3);
    VerdictByChecks(e, s, m, checks);
    DecidedAlike(v, checks, b, e.contract, scenario, report);
  }

  /** `v` is composed on the whole trace, for the boundary `b`. */
  ghost predicate IsComposed(v: Verdict, rows: seq<Row>, b: Boundary, scenario: Scenario, report: Report, o: Oracles) {
    var s := WithReportCpa(scenario, report);
    v == Compose(Gather(rows, s, b, o.round3), s, RunOracles(FastSlice(rows, b), b, scenario, report, o))
  }

  lemma UnreadyFails(v: Verdict, rows: seq<Row>, b: Boundary, scenario: Scenario, report: Report, o: Oracles)
    requires IsComposed(v, rows, b, scenario, report, o) && !b.ready
    ensures !v.passed
  {
    var s := WithReportCpa(scenario, report);
    var e, m := Gather(rows, s, b, o.round3), RunOracles(FastSlice(rows, b), b, scenario, report, o);
    GatherKeeps(rows, s, b, o.round3);
    ReadyNeeded(e, s, m);
  }

  /** The verdict that the public entry point returns. */
  lemma TraceVerdict(rows: seq<Row>, scenario: Scenario, report: Report, o: Oracles) returns (v: Verdict)
    requires BoundaryFor(rows, scenario).Ok?
    ensures EvaluateFastTrace(rows, scenario, report, o) == Ok(v)
    ensures IsComposed(v, rows, BoundaryFor(rows, scenario).value, scenario, report, o)
  {
    ComposedOnRows(rows, scenario, report, o);
    v := EvaluateFastTrace(rows, scenario, report, o).value;
  }

  /** An own-recovery trace passes exactly when its boundary is ready and all checks hold on the raw rows; with a
      ready boundary any other verdict blames the first check of the chain that does not. */
  lemma OwnVerdict(rows: seq<Row>, scenario: Scenario, report: Report, o: Oracles) returns (v: Verdict)
    requires !IsTarget(scenario) && BoundaryFor(rows, scenario).Ok?
    ensures EvaluateFastTrace(rows, scenario, report, o) == Ok(v)
    ensures var b := OwnBoundary(rows, scenario.minTransit);
            && (v.passed ==> b.ready)
            && (b.ready ==>
                  && b.avoidanceStart.Some?
                  && DecidedBy(v, OwnChecks(rows, b, scenario, report, o), b, ContractOf(Demands(rows, b.stop)),
                               scenario))
  {
    var b := OwnBoundary(rows, scenario.minTransit);
    v := TraceVerdict(rows, scenario, report, o);
    assert BoundaryFor(rows, scenario).value == b;
    if b.ready {
      ReadyBoundaryIsOrdered(rows, scenario.minTransit);
      OwnReadyVerdict(rows, b, scenario, report, o, v);
    } else {
      UnreadyFails(v, rows, b, scenario, report, o);
    }
  }

  lemma GatheredContract(rows: seq<Row>, s: Scenario, b: Boundary, round3: real -> real)
    requires b.stop.Some?
    ensures Gather(rows, s, b, round3).contract == if IsTarget(s) then NoDemand else ContractOf(Demands(rows, b.stop))
  {
  }

  lemma BlamesAlike(v: Verdict, n: int, b: Boundary, contract: Contract, s: Scenario, report: Report)
    requires Blames(v, n, b, contract, WithReportCpa(s, report))
    ensures Blames(v, n, b, contract, s)
  {
  }

  lemma DecidedAlike(v: Verdict, checks: Check -> bool, b: Boundary, contract: Contract, s: Scenario, report: Report)
    requires DecidedBy(v, checks, b, contract, WithReportCpa(s, report))
    ensures DecidedBy(v, checks, b, contract, s)
  {
    if !v.passed {
      var n :| IsFirstFailure(n, CHAIN, checks) && Blames(v, n, b, contract, WithReportCpa(s, report));
      BlamesAlike(v, n, b, contract, s, report);
    }
  }

  lemma TargetReadyVerdict(rows: seq<Row>, scenario: Scenario, report: Report, o: Oracles, v: Verdict)
    requires IsTarget(scenario)
    requires var b := TargetBoundary(rows, scenario.minTransit, scenario.clearDwell);
             && b.ready && b.stop.Some? && b.transitStart.Some? && b.recoveryStart.Some?
             && IsComposed(v, rows, b, scenario, report, o)
    ensures var b := TargetBoundary(rows, scenario.minTransit, scenario.clearDwell);
            DecidedBy(v, TargetChecks(rows, b, scenario, report, o), b, NoDemand, scenario)
  {
    var b, s := TargetBoundary(rows, scenario.minTransit, scenario.clearDwell), WithReportCpa(scenario, report);
    var e, m := Gather(rows, s, b, o.round3), RunOracles(FastSlice(rows, b), b, scenario, report, o);
    var checks := TargetChecks(rows, b, scenario, report, o);
    forall c ensures Holds(c, e, s, m) <==> checks(c) {
      TargetChecksHold(rows, scenario, report, o, c);
    }
    GatherKeeps(rows, s, b, o.round3);
    GatheredContract(rows, s, b, o.round3);
    VerdictByChecks(e, s, m, checks);
    DecidedAlike(v, checks, b, e.contract, scenario, report);
  }

  /** The same for target-resolution traces. */
  lemma TargetVerdict(rows: seq<Row>, scenario: Scenario, report: Report, o: Oracles) returns (v: Verdict)
    requires IsTarget(scenario)
    ensures EvaluateFastTrace(rows, scenario, report, o) == Ok(v)
    ensures var b := TargetBoundary(rows, scenario.minTransit, scenario.clearDwell);
            && (v.passed ==> b.ready)
            && (b.ready ==>
                  && b.stop.Some? && b.transitStart.Some? && b.recoveryStart.Some?
                  && DecidedBy(v, TargetChecks(rows, b, scenario, report, o), b, NoDemand, scenario))
  {
    var b := TargetBoundary(rows, scenario.minTransit, scenario.clearDwell);
    v := TraceVerdict(rows, scenario, report, o);
    if b.ready {
      TargetReadyInstants(rows, scenario.minTransit, scenario.clearDwell);
      TargetReadyVerdict(rows, scenario, report, o, v);
    } else {
      UnreadyFails(v, rows, b, scenario, report, o);
    }
  }

  ghost predicate SharedOraclesPass(slice: seq<Row>, s: Scenario, report: Report, o: Oracles) {
    && o.m1(slice).passed
    && o.m2(s, Filter(IsWorldRow, slice), Filter(IsOwnShip, slice)).passed
    && o.m6(s, slice).passed
    && o.m7(slice).passed
    && AuditOf(slice, report).Passes()
  }

  ghost predicate OwnOraclesPass(slice: seq<Row>, b: Boundary, o: Oracles) {
    o.m4(slice, Filter(IsConstraint, slice)).passed && o.m5(slice).passed && o.l4(slice, b).passed
  }

  lemma SharedChecksNeedOracles(slice: seq<Row>, s: Scenario, report: Report, o: Oracles)
    requires forall c :: IsShared(c) ==> SharedCheck(c, slice, s, report, o)
    ensures SharedOraclesPass(slice, s, report, o)
  {
    assert IsShared(M1MrmAuthorityValid) && IsShared(M2GeometryValid) && IsShared(M6RuleRoleDirectionValid);
    assert IsShared(M7CheckerClosed) && IsShared(GArtComplete);
  }

  lemma OwnModules(rows: seq<Row>, b: Boundary, s: Scenario, report: Report, o: Oracles)
    requires b.ready && b.avoidanceStart.Some?
    requires OwnCheck(M4LifecycleValid, rows, b, s, report, o)
    requires OwnCheck(M5ExecutableRouteValid, rows, b, s, report, o)
    requires OwnCheck(GncHandoffIdentityValid, rows, b, s, report, o)
    ensures OwnOraclesPass(FastSlice(rows, b), b, o)
  {
  }

  lemma OwnChecksNeedOracles(rows: seq<Row>, b: Boundary, s: Scenario, report: Report, o: Oracles)
    requires b.ready && b.avoidanceStart.Some? && forall c :: OwnChecks(rows, b, s, report, o)(c)
    ensures SharedOraclesPass(FastSlice(rows, b), s, report, o) && OwnOraclesPass(FastSlice(rows, b), b, o)
  {
    var checks := OwnChecks(rows, b, s, report, o);
    forall c | IsShared(c) ensures SharedCheck(c, FastSlice(rows, b), s, report, o) {
      assert checks(c);
      OwnChecksShare(c, rows, b, s, report, o);
    }
    SharedChecksNeedOracles(FastSlice(rows, b), s, report, o);
    assert checks(M4LifecycleValid) && checks(M5ExecutableRouteValid) && checks(GncHandoffIdentityValid);
    OwnModules(rows, b, s, report, o);
  }

  lemma TargetChecksNeedOracles(rows: seq<Row>, b: Boundary, s: Scenario, report: Report, o: Oracles)
    requires b.ready && b.stop.Some? && b.transitStart.Some? && b.recoveryStart.Some?
    requires forall c :: TargetChecks(rows, b, s, report, o)(c)
    ensures SharedOraclesPass(FastSlice(rows, b), s, report, o)
  {
    var checks := TargetChecks(rows, b, s, report, o);
    forall c | IsShared(c) ensures SharedCheck(c, FastSlice(rows, b), s, report, o) {
      assert checks(c);
      TargetChecksShare(c, rows, b, s, report, o);
    }
    SharedChecksNeedOracles(FastSlice(rows, b), s, report, o);
  }

  /** No module oracle rejects the slice of a passed run: none is skipped, and none stands in for another. */
  lemma PassNeedsEveryOracle(rows: seq<Row>, scenario: Scenario, report: Report, o: Oracles)
    requires Passed(rows, scenario, report, o)
    ensures BoundaryFor(rows, scenario).Ok?
    ensures var b := BoundaryFor(rows, scenario).value;
            && SharedOraclesPass(FastSlice(rows, b), scenario, report, o)
            && (IsTarget(scenario) || OwnOraclesPass(FastSlice(rows, b), b, o))
  {
    var b := BoundaryFor(rows, scenario).value;
    if IsTarget(scenario) {
      var v := TargetVerdict(rows, scenario, report, o);
      TargetChecksNeedOracles(rows, b, scenario, report, o);
    } else {
      var v := OwnVerdict(rows, scenario, report, o);
      OwnChecksNeedOracles(rows, b, scenario, report, o);
    }
  }

  /** If all other checks hold, a rejecting M7 oracle alone turns the verdict red, under its own name. */
  lemma RejectingM7IsBlamed(rows: seq<Row>, scenario: Scenario, report: Report, o: Oracles) returns (v: Verdict)
    requires !IsTarget(scenario) && BoundaryFor(rows, scenario).Ok?
    requires var b := OwnBoundary(rows, scenario.minTransit);
             && b.ready && b.avoidanceStart.Some?
             && !o.m7(FastSlice(rows, b)).passed
             && forall c :: c != M7CheckerClosed ==> OwnChecks(rows, b, scenario, report, o)(c)
    ensures EvaluateFastTrace(rows, scenario, report, o) == Ok(v)
    ensures !v.passed && v.firstBrokenStage == "M7" && v.firstFailure == Some(Named("M7_CHECKER_NOT_CLOSED"))
  {
    var b := OwnBoundary(rows, scenario.minTransit);
    v := OwnVerdict(rows, scenario, report, o);
    var checks := OwnChecks(rows, b, scenario, report, o);
    M7Rejected(rows, b, scenario, report, o);
    OnlyM7(v, checks, b, ContractOf(Demands(rows, b.stop)), scenario);
  }

  lemma M7Rejected(rows: seq<Row>, b: Boundary, s: Scenario, report: Report, o: Oracles)
    requires b.ready && b.avoidanceStart.Some? && !o.m7(FastSlice(rows, b)).passed
    ensures !OwnChecks(rows, b, s, report, o)(M7CheckerClosed)
  {
  }

  lemma OnlyM7(v: Verdict, checks: Check -> bool, b: Boundary, contract: Contract, s: Scenario)
    requires DecidedBy(v, checks, b, contract, s)
    requires !checks(M7CheckerClosed) && forall c :: c != M7CheckerClosed ==> checks(c)
    ensures !v.passed && v.firstBrokenStage == "M7" && v.firstFailure == Some(Named("M7_CHECKER_NOT_CLOSED"))
  {
    var n :| IsFirstFailure(n, CHAIN, checks) && Blames(v, n, b, contract, s);
    assert CHAIN[n] == M7CheckerClosed;
  }

  // ----- The reported angles -----

  /** The largest demand up to the stop, and the turn realized from the heading at the avoidance onset; zeros
      without a consistent demand. */
  ghost predicate Angles(e: Evidence, rows: seq<Row>, b: Boundary, round3: real -> real)
    requires b.avoidanceStart.Some?
  {
    match ContractOf(Demands(rows, b.stop))
    case Turning(onset, direction, required) =>
      && e.required == required
      && e.realized == round3(RealizedTurn(rows, b.avoidanceStart.value, onset, b.stop, direction))
    case _ => e.required == e.realized == 0.0
  }

  lemma GatheredAngles(rows: seq<Row>, s: Scenario, b: Boundary, round3: real -> real)
    requires b.stop.Some? && b.avoidanceStart.Some? && RecoveryStop(b) == b.stop && !IsTarget(s)
    ensures Angles(Gather(rows, s, b, round3), rows, b, round3)
  {
  }

  lemma ComposedEvidence(e: Evidence, s: Scenario, m: ModuleResults)
    ensures Compose(e, s, m).evidence == e
  {
  }

  lemma ComposedAngles(v: Verdict, rows: seq<Row>, b: Boundary, scenario: Scenario, report: Report, o: Oracles)
    requires IsComposed(v, rows, b, scenario, report, o) && !IsTarget(scenario)
    requires b.stop.Some? && b.avoidanceStart.Some? && b.recoveryStart == b.stop
    ensures Angles(v.evidence, rows, b, o.round3)
  {
    var s := WithReportCpa(scenario, report);
    ComposedEvidence(Gather(rows, s, b, o.round3), s, RunOracles(FastSlice(rows, b), b, scenario, report, o));
    GatheredAngles(rows, s, b, o.round3);
  }

  /** The angles that the verdict on a ready own-recovery boundary reports, passed or not. */
  lemma ReportedAngles(rows: seq<Row>, scenario: Scenario, report: Report, o: Oracles) returns (v: Verdict)
    requires !IsTarget(scenario) && BoundaryFor(rows, scenario).Ok? && OwnBoundary(rows, scenario.minTransit).ready
    ensures EvaluateFastTrace(rows, scenario, report, o) == Ok(v)
    ensures var b := OwnBoundary(rows, scenario.minTransit);
            b.avoidanceStart.Some? && Angles(v.evidence, rows, b, o.round3)
  {
    var b := OwnBoundary(rows, scenario.minTransit);
    ReadyBoundaryIsOrdered(rows, scenario.minTransit);
    v := TraceVerdict(rows, scenario, report, o);
    assert BoundaryFor(rows, scenario).value == b;
    ComposedAngles(v, rows, b, scenario, report, o);
  }

  // ----- A target boundary that is ready but too short for the verdict -----

  /** The detector measures the TRANSIT span between TRANSIT rows, the verdict from the first of them to the clear
      spell: a ready target boundary whose clear spell begins too early fails, whatever the oracles say, and when
      the scenario is locked the blame is a TRANSIT prefix that was too short. */
  lemma EarlyClearFails(rows: seq<Row>, scenario: Scenario, report: Report, o: Oracles) returns (v: Verdict)
    requires IsTarget(scenario)
    requires var b := TargetBoundary(rows, scenario.minTransit, scenario.clearDwell);
             && b.ready && b.stop.Some? && b.transitStart.Some? && b.recoveryStart.Some?
             && b.recoveryStart.value - b.transitStart.value < scenario.minTransit
    ensures EvaluateFastTrace(rows, scenario, report, o) == Ok(v)
    ensures !v.passed
    ensures TruthLocked(scenario) ==>
              v.firstBrokenStage == "M4"
              && v.firstFailure == Some(BoundaryCode(TargetBoundary(rows, scenario.minTransit, scenario.clearDwell),
                                                     TransitPrefixTooShort))
  {
    var b := TargetBoundary(rows, scenario.minTransit, scenario.clearDwell);
    v := TargetVerdict(rows, scenario, report, o);
    var checks := TargetChecks(rows, b, scenario, report, o);
    PrefixRejected(rows, b, scenario, report, o);
    SecondFails(v, checks, b, scenario);
  }

  lemma PrefixRejected(rows: seq<Row>, b: Boundary, s: Scenario, report: Report, o: Oracles)
    requires b.ready && b.stop.Some? && b.transitStart.Some? && b.recoveryStart.Some?
    requires b.recoveryStart.value - b.transitStart.value < s.minTransit
    ensures !TargetChecks(rows, b, s, report, o)(TransitPrefixObserved)
    ensures TargetChecks(rows, b, s, report, o)(ScenarioTruthLocked) == TruthLocked(s)
  {
  }

  lemma SecondFails(v: Verdict, checks: Check -> bool, b: Boundary, s: Scenario)
    requires DecidedBy(v, checks, b, NoDemand, s) && !checks(TransitPrefixObserved)
    ensures !v.passed
    ensures checks(ScenarioTruthLocked) ==>
              v.firstBrokenStage == "M4" && v.firstFailure == Some(BoundaryCode(b, TransitPrefixTooShort))
  {
    var n :| IsFirstFailure(n, CHAIN, checks) && Blames(v, n, b, NoDemand, s);
    assert CHAIN[0] == ScenarioTruthLocked && CHAIN[1] == TransitPrefixObserved;
  }

  /** For instance a run that stops with success at 100 s after 90 s of TRANSIT, with a minimum of 60 s. */
  lemma ReadyRunIsRejected(scenario: Scenario, report: Report, o: Oracles) returns (v: Verdict)
    requires IsTarget(scenario) && scenario.minTransit == 60.0 && scenario.clearDwell == 10.0
    ensures var rows := LateSpanTrace(20.0, 90.0, 100.0);
            && TargetBoundary(rows, 60.0, 10.0).ready
            && TargetBoundary(rows, 60.0, 10.0).stopReason == Some(EncounterClearWithOwnHold)
            && EvaluateFastTrace(rows, scenario, report, o) == Ok(v) && !v.passed
  {
    LateSpanInstants(20.0, 90.0, 100.0, 60.0);
    v := EarlyClearFails(LateSpanTrace(20.0, 90.0, 100.0), scenario, report, o);
  }
}
