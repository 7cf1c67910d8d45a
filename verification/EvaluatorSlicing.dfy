/** Every part of `evaluate_fast` looks no further than the stop: handed the whole trace instead of the
    slice it composes the same verdict. */
module EvaluatorSlicing {
  import opened Options
  import opened TraceRow
  import opened StableSort
  import opened FastBoundary
  import opened BoundarySlicing
  import opened OwnLifecycle
  import opened FastEvaluator
  import opened FastVerdictProofs

  // ----- Loops in file order -----

  lemma UpToStop(r: Row, stop: real)
    ensures AtMost(Time, stop)(r) == (r.t <= stop)
  {
    assert Time(r) == r.t;
  }

  lemma SliceStep(rows: seq<Row>, stop: real)
    requires rows != []
    ensures Slice(rows, stop)
         == if rows[0].t <= stop then [rows[0]] + Slice(rows[1..], stop) else Slice(rows[1..], stop)
  {
    UpToStop(rows[0], stop);
  }

  lemma SliceMembers(rows: seq<Row>, stop: real)
    ensures forall r :: r in Slice(rows, stop) <==> r in rows && r.t <= stop
  {
    forall r | r in rows ensures AtMost(Time, stop)(r) == (r.t <= stop) {
      UpToStop(r, stop);
    }
  }

  lemma {:induction false} DemandsUpToStop(rows: seq<Row>, stop: real)
    ensures Demands(Slice(rows, stop), Some(stop)) == Demands(rows, Some(stop))
  {
    if rows != [] {
      DemandsUpToStop(rows[1..], stop);
      SliceStep(rows, stop);
      if rows[0].t <= stop {
        assert Slice(rows, stop)[1..] == Slice(rows[1..], stop);
      }
    }
  }

  lemma {:induction false} TargetLoopsUpToStop(rows: seq<Row>, scenario: Scenario, initial: real, stop: real)
    ensures FirstResolution(Slice(rows, stop), scenario, initial, Some(stop))
         == FirstResolution(rows, scenario, initial, Some(stop))
    ensures TargetTurn(Slice(rows, stop), initial, Some(stop)) == TargetTurn(rows, initial, Some(stop))
    ensures TargetDeviations(Slice(rows, stop), initial, Some(stop)) == TargetDeviations(rows, initial, Some(stop))
  {
    if rows != [] {
      TargetLoopsUpToStop(rows[1..], scenario, initial, stop);
      SliceStep(rows, stop);
      if rows[0].t <= stop {
        assert Slice(rows, stop)[1..] == Slice(rows[1..], stop);
      } else {
        assert !IsWorldState(rows[0], Some(stop));
        var rest := TargetDeviations(rows[1..], initial, Some(stop));
        assert [] + rest == rest;
      }
    }
  }

  lemma TargetContractUpToStop(rows: seq<Row>, scenario: Scenario, stop: real, round3: real -> real)
    ensures TargetContract(Slice(rows, stop), scenario, Some(stop), round3)
         == TargetContract(rows, scenario, Some(stop), round3)
  {
    var initial := ToFloat(scenario.targetInitialHeading);
    if initial.Some? {
      TargetLoopsUpToStop(rows, scenario, initial.value, stop);
    }
  }

  lemma TakeoversUpToStop(rows: seq<Row>, stop: real)
    ensures NoTacticalRoute(Slice(rows, stop), Some(stop)) == NoTacticalRoute(rows, Some(stop))
    ensures NoGncTakeover(Slice(rows, stop), Some(stop)) == NoGncTakeover(rows, Some(stop))
  {
    SliceMembers(rows, stop);
  }

  // ----- Own-ship samples in time order -----

  /** The own-ship samples of the slice are a prefix of those of the trace; the rest lies beyond the stop. */
  lemma OwnShipSplits(rows: seq<Row>, stop: real)
    ensures OwnShipRows(rows) == OwnShipRows(Slice(rows, stop)) + Filter(Beyond(Time, stop), OwnShipRows(rows))
  {
    EventsSplitAtStop(IsOwnShip, rows, stop);
  }

  lemma {:induction false} FilterIgnoresTail(p: Row -> bool, a: seq<Row>, b: seq<Row>)
    requires forall r :: r in b ==> !p(r)
    ensures Filter(p, a + b) == Filter(p, a)
  {
    if a == [] {
      assert a + b == b;
      FilterKeepsNone(p, b);
    } else {
      assert (a + b)[1..] == a[1..] + b;
      FilterIgnoresTail(p, a[1..], b);
    }
  }

  lemma EarlierSamplesUpToStop(rows: seq<Row>, base: real, stop: real)
    requires base <= stop
    ensures Filter(AtMost(Time, base), OwnShipRows(Slice(rows, stop))) == Filter(AtMost(Time, base), OwnShipRows(rows))
  {
    OwnShipSplits(rows, stop);
    FilterIgnoresTail(AtMost(Time, base), OwnShipRows(Slice(rows, stop)),
                      Filter(Beyond(Time, stop), OwnShipRows(rows)));
  }

  lemma WindowUpToStop(rows: seq<Row>, onset: real, stop: real)
    ensures Filter(InWindow(onset, Some(stop)), OwnShipRows(Slice(rows, stop)))
         == Filter(InWindow(onset, Some(stop)), OwnShipRows(rows))
  {
    OwnShipSplits(rows, stop);
    FilterIgnoresTail(InWindow(onset, Some(stop)), OwnShipRows(Slice(rows, stop)),
                      Filter(Beyond(Time, stop), OwnShipRows(rows)));
  }

  /** The fall-back base heading may come from beyond the stop, but then the window is empty. */
  lemma RealizedTurnUpToStop(rows: seq<Row>, base: real, onset: real, stop: real, direction: string)
    requires base <= stop
    ensures RealizedTurn(Slice(rows, stop), base, onset, Some(stop), direction)
         == RealizedTurn(rows, base, onset, Some(stop), direction)
  {
    var mine, all := OwnShipRows(Slice(rows, stop)), OwnShipRows(rows);
    OwnShipSplits(rows, stop);
    EarlierSamplesUpToStop(rows, base, stop);
    WindowUpToStop(rows, onset, stop);
    if mine == [] {
      assert Filter(InWindow(onset, Some(stop)), all) == [];
    } else {
      assert all[0] == mine[0];
    }
  }

  lemma OwnHoldsUpToStop(rows: seq<Row>, stop: real)
    ensures OwnHolds(Slice(rows, stop), Some(stop)) == OwnHolds(rows, Some(stop))
  {
    forall r | r in rows && OwnShipWithin(Some(stop))(r) ensures AtMost(Time, stop)(r) {
      UpToStop(r, stop);
    }
    FilterOfWeakerFilter(OwnShipWithin(Some(stop)), AtMost(Time, stop), rows);
  }

  // ----- The whole of `evaluate_fast` -----

  lemma DemandOnsetIsEarly(rows: seq<Row>, stop: real)
    ensures var c := ContractOf(Demands(rows, Some(stop))); c.Turning? ==> c.onset <= stop
  {
    DemandTimes(rows, Some(stop));
  }

  lemma {:induction false} DemandTimes(rows: seq<Row>, limit: Option<real>)
    ensures forall d :: d in Demands(rows, limit) ==> limit.None? || d.t <= limit.value
  {
    if rows != [] {
      DemandTimes(rows[1..], limit);
      RuleDemandTimes(rows[0], rows[0].activeRules);
    }
  }

  lemma {:induction false} RuleDemandTimes(row: Row, rules: seq<ActiveRule>)
    ensures forall d :: d in RuleDemands(row, rules) ==> d.t == row.t
  {
    if rules != [] {
      RuleDemandTimes(row, rules[1..]);
    }
  }

  /** In own-recovery mode the instants of a stopped boundary do not lie beyond its stop. */
  ghost predicate InstantsBeforeStop(b: Boundary) {
    && b.stop.Some?
    && (b.avoidanceStart.Some? ==> b.avoidanceStart.value <= b.stop.value)
    && (b.recoveryStart.Some? ==> b.recoveryStart == b.stop)
  }

  lemma OwnInstantsBeforeStop(rows: seq<Row>, minTransit: real)
    requires OwnBoundary(rows, minTransit).stop.Some?
    ensures InstantsBeforeStop(OwnBoundary(rows, minTransit))
  {
    var c := Modes(rows);
    OwnBoundaryIsOutcome(rows, minTransit);
    ModesAreOrdered(rows);
    var i := FirstOther(c, 0, TRANSIT);
    if i < |c| {
      var j := FirstOther(c, i, AVOIDANCE);
      if j < |c| {
        assert Time(c[i]) <= Time(c[j]);
      }
    }
  }

  lemma GatherUpToStop(rows: seq<Row>, scenario: Scenario, b: Boundary, round3: real -> real)
    requires b.stop.Some? && (IsTarget(scenario) || InstantsBeforeStop(b))
    ensures Gather(Slice(rows, b.stop.value), scenario, b, round3) == Gather(rows, scenario, b, round3)
  {
    var stop := b.stop.value;
    TargetContractUpToStop(rows, scenario, stop, round3);
    TakeoversUpToStop(rows, stop);
    if IsTarget(scenario) {
      OwnHoldsUpToStop(rows, stop);
    } else {
      DemandsUpToStop(rows, stop);
      DemandOnsetIsEarly(rows, stop);
      var c := ContractOf(Demands(rows, Some(stop)));
      if c.Turning? {
        RealizedTurnUpToStop(rows, if b.avoidanceStart.Some? then b.avoidanceStart.value else c.onset, c.onset,
                             stop, c.direction);
        EarlierSamplesUpToStop(rows, c.onset, stop);
        assert RecoveryStop(b) == Some(stop);
      }
    }
  }

  /** Slicing first, as the public entry point does, or composing on the whole trace: same verdict. */
  lemma EvaluateFastNeedsNoSlice(rows: seq<Row>, scenario: Scenario, m: ModuleResults, round3: real -> real)
    requires BoundaryFor(rows, scenario).Ok?
    ensures EvaluateFast(FastSlice(rows, BoundaryFor(rows, scenario).value), scenario, m, round3)
         == EvaluateFast(rows, scenario, m, round3)
  {
    var b := BoundaryFor(rows, scenario).value;
    SliceHasTheSameBoundary(rows, scenario);
    if b.stop.Some? {
      if !IsTarget(scenario) {
        OwnInstantsBeforeStop(rows, scenario.minTransit);
      }
      GatherUpToStop(rows, scenario, b, round3);
      EvaluatedVerdict(rows, scenario, m, round3);
      EvaluatedVerdict(Slice(rows, b.stop.value), scenario, m, round3);
    }
  }

  // ----- File order -----

  /** The M6 contract does not depend on the order of the demands. */
  lemma ContractIsOrderFree(a: seq<Demand>, b: seq<Demand>)
    requires forall d :: d in a <==> d in b
    ensures ContractOf(a) == ContractOf(b)
  {
  }

  ghost predicate SameRows(a: seq<Row>, b: seq<Row>) {
    forall r :: r in a <==> r in b
  }

  /** The entry `rule` of `row` demands `d`. */
  ghost predicate Asks(row: Row, rule: ActiveRule, d: Demand) {
    && rule.isMapping && IsTurnDirection(row.preferredDirection)
    && d.t == row.t && d.direction == row.preferredDirection
    && d.degrees > 0.0 && ToFloat(rule.minAlteration) == Some(d.degrees)
  }

  lemma {:induction false} RuleDemandsMeaning(row: Row, rules: seq<ActiveRule>)
    ensures forall d :: d in RuleDemands(row, rules) <==> exists rule :: rule in rules && Asks(row, rule, d)
  {
    if rules != [] {
      RuleDemandsMeaning(row, rules[1..]);
      assert forall rule :: rule in rules <==> rule == rules[0] || rule in rules[1..];
      forall d
        ensures d in RuleDemands(row, rules) <==> Asks(row, rules[0], d) || d in RuleDemands(row, rules[1..])
      {
      }
    }
  }

  /** Some entry of the M6 row `r` demands `d`. */
  ghost predicate Demanded(r: Row, d: Demand, limit: Option<real>) {
    IsConstraint(r) && Within(r, limit) && exists rule :: rule in r.activeRules && Asks(r, rule, d)
  }

  /** The demands of a trace are those of the rule entries of its M6 rows up to the limit. */
  lemma {:induction false} DemandsFrom(rows: seq<Row>, limit: Option<real>)
    ensures forall d :: d in Demands(rows, limit) <==> exists r :: r in rows && Demanded(r, d, limit)
  {
    if rows != [] {
      DemandsFrom(rows[1..], limit);
      RuleDemandsMeaning(rows[0], rows[0].activeRules);
      assert forall r :: r in rows <==> r == rows[0] || r in rows[1..];
      forall d
        ensures d in Demands(rows, limit) <==> Demanded(rows[0], d, limit) || d in Demands(rows[1..], limit)
      {
      }
    }
  }

  /** Shuffling or repeating the rows of a trace leaves its M6 contract as it is. */
  lemma RowOrderIsFree(a: seq<Row>, b: seq<Row>, limit: Option<real>)
    requires SameRows(a, b)
    ensures ContractOf(Demands(a, limit)) == ContractOf(Demands(b, limit))
  {
    DemandsFrom(a, limit);
    DemandsFrom(b, limit);
    ContractIsOrderFree(Demands(a, limit), Demands(b, limit));
  }

  predicate ResolvesWithin(r: Row, scenario: Scenario, initial: real, limit: Option<real>) {
    IsWorldState(r, limit) && Resolves(r, scenario, initial)
  }

  /** The target's resolution time is the first one in file order; on a time-ordered trace that is the
      earliest. */
  lemma {:induction false} FirstResolutionMeaning(rows: seq<Row>, scenario: Scenario, initial: real,
                                                  limit: Option<real>)
    ensures var t := FirstResolution(rows, scenario, initial, limit);
            && (t.None? <==> forall r :: r in rows ==> !ResolvesWithin(r, scenario, initial, limit))
            && (t.Some? ==> exists r :: r in rows && ResolvesWithin(r, scenario, initial, limit) && r.t == t.value)
            && (t.Some? && Sorted(Time, rows) ==>
                  forall r :: r in rows && ResolvesWithin(r, scenario, initial, limit) ==> t.value <= r.t)
  {
    if rows != [] {
      FirstResolutionMeaning(rows[1..], scenario, initial, limit);
      assert forall r :: r in rows <==> r == rows[0] || r in rows[1..];
      if ResolvesWithin(rows[0], scenario, initial, limit) && Sorted(Time, rows) {
        forall r | r in rows ensures rows[0].t <= r.t {
          var k :| 0 <= k < |rows| && rows[k] == r;
          assert Time(rows[0]) <= Time(rows[k]);
        }
      }
    }
  }
}
