/** The route handoff from M5 to guidance: the committed plan must be accepted and become the active route. */
module RouteHandoff {
  import opened Options
  import opened TraceRow
  import opened StableSort
  import opened FastBoundary
  import opened BoundarySlicing
  import opened OwnLifecycle
  import opened ArtifactConsistency
  import opened FastEvaluator
  import opened FastVerdictProofs
  import opened EvaluatorSlicing
  import opened PassedRuns
  import opened VerdictMeaning

  // ----- One row -----

  /** `str.lower` on ASCII letters. */
  function Lower(s: string): string {
    seq(|s|, i requires 0 <= i < |s| =>
      if 'A' <= s[i] <= 'Z' then ((s[i] as int - 'A' as int + 'a' as int) as char) else s[i])
  }

  predicate Contains(s: string, part: string) {
    part <= s || (s != "" && Contains(s[1..], part))
  }

  /** `part` occurs in `s`. */
  lemma {:induction false} ContainsMeaning(s: string, part: string)
    ensures Contains(s, part) <==> exists i :: 0 <= i <= |s| && part <= s[i..]
  {
    if part <= s {
      assert s[0..] == s;
    } else if s != "" {
      ContainsMeaning(s[1..], part);
      forall i | 1 <= i <= |s| ensures s[i..] == s[1..][i - 1..] {
      }
      if i :| 0 <= i <= |s| && part <= s[i..] {
        assert i > 0 && s[i..] == s[1..][i - 1..];
      }
      if i :| 0 <= i <= |s[1..]| && part <= s[1..][i..] {
        assert s[1..][i..] == s[i + 1..];
      }
    }
  }

  predicate PreflightProven(r: Row) {
    || Contains(Lower(r.route.rationale + " " + r.route.reason), "gnc_preflight=feasible")
    || Lower(r.route.preflight) in {"feasible", "pass", "passed"}
    || r.route.preflightFeasible
  }

  /** `_m5_route_is_valid`: committed, complete, preflight-proven, and named. */
  predicate IsValidRoute(r: Row) {
    var branch, arrays := ToIntOr0(r.commitBranch), r.route.arrays;
    && branch.Some? && 1 <= branch.value <= 3
    && arrays != []
    && (forall k :: 0 <= k < |arrays| ==> arrays[k].Some? && arrays[k] == arrays[0])
    && arrays[0].value >= 2
    && PreflightProven(r)
    && r.planId != ""
  }

  /** The first positive counter. */
  function FirstPositive(counts: seq<Cell>): Option<int> {
    if counts == [] then None
    else if ToIntOr0(counts[0]).Some? && ToIntOr0(counts[0]).value > 0 then ToIntOr0(counts[0])
    else FirstPositive(counts[1..])
  }

  /** `_point_count_of` */
  function PointCount(r: Row): int {
    match FirstPositive(r.route.counts + [r.waypointCount])
    case Some(n) => n
    case None => if r.route.points.Some? then r.route.points.value else 0
  }

  function AcceptedRouteId(r: Row): string {
    if r.route.activeRouteId != "" then r.route.activeRouteId else r.planId
  }

  predicate IsAccepted(r: Row) {
    r.accepted || Lower(r.route.executionState) == "accepted"
  }

  function IsPlan(r: Row): bool {
    r.topic == AvoidancePlan
  }

  function IsStatus(r: Row): bool {
    r.topic == ExecutionStatus
  }

  function IsActiveRoute(r: Row): bool {
    r.topic == ActiveRoute
  }

  /** An execution status that accepts plan `id`. */
  function Accepts(id: string): Row -> bool {
    (r: Row) => AcceptedRouteId(r) == id && IsAccepted(r)
  }

  /** An active route that is plan `id` and can be executed. */
  function Follows(id: string): Row -> bool {
    (r: Row) => r.route.routeId == id && PointCount(r) >= 2
  }

  // ----- The three loops, for any window -----

  function Both(p: Row -> bool, q: Row -> bool): Row -> bool {
    (r: Row) => p(r) && q(r)
  }

  /** The rows of one kind, in time order, that lie in the window and satisfy `p`. */
  function Candidates(rows: seq<Row>, kind: Row -> bool, window: Row -> bool, p: Row -> bool): seq<Row> {
    Filter(Both(window, p), EventsOf(kind, rows))
  }

  /** The committed plan: the first valid one. */
  function FirstPlan(rows: seq<Row>, window: Row -> bool, valid: Row -> bool): Option<string> {
    var c := Candidates(rows, IsPlan, window, valid);
    if c == [] then None else Some(c[0].planId)
  }

  ghost predicate SomeIn(rows: seq<Row>, kind: Row -> bool, window: Row -> bool, p: Row -> bool) {
    exists r :: r in rows && kind(r) && window(r) && p(r)
  }

  function AnyRow(r: Row): bool {
    true
  }

  method FindCommittedPlan(rows: seq<Row>, window: Row -> bool, valid: Row -> bool) returns (id: Option<string>)
    ensures id == FirstPlan(rows, window, valid)
  {
    var plans := Sort(Time, Filter(IsPlan, rows));
    id := None;
    var i := 0;
    while i < |plans|
      invariant i <= |plans|
      invariant id.None?
      invariant Filter(Both(window, valid), plans[i..]) == Candidates(rows, IsPlan, window, valid)
    {
      var row := plans[i];
      i := i + 1;
      assert plans[i - 1..][1..] == plans[i..];
      if !window(row) {
        continue;
      }
      if valid(row) {
        return Some(row.planId);
      }
    }
  }

  method FindAcceptance(rows: seq<Row>, window: Row -> bool, accepts: Row -> bool) returns (accepted: bool)
    ensures accepted <==> SomeIn(rows, IsStatus, window, accepts)
  {
    var statuses := Sort(Time, Filter(IsStatus, rows));
    for i := 0 to |statuses|
      invariant forall k :: 0 <= k < i ==> !(window(statuses[k]) && accepts(statuses[k]))
    {
      var row := statuses[i];
      if !window(row) {
        continue;
      }
      if accepts(row) {
        assert row in statuses;
        return true;
      }
    }
    forall r | r in rows && IsStatus(r) ensures !(window(r) && accepts(r)) {
      assert r in statuses;
    }
    return false;
  }

  /** `saw` is whether any active-route row could be aligned with the window. */
  method FindActiveRoute(rows: seq<Row>, window: Row -> bool, follows: Row -> bool) returns (matched: bool, saw: bool)
    ensures matched <==> SomeIn(rows, IsActiveRoute, window, follows)
    ensures saw <==> SomeIn(rows, IsActiveRoute, window, AnyRow)
  {
    var routes := Sort(Time, Filter(IsActiveRoute, rows));
    saw := false;
    for i := 0 to |routes|
      invariant forall k :: 0 <= k < i ==> !(window(routes[k]) && follows(routes[k]))
      invariant saw <==> exists k :: 0 <= k < i && window(routes[k])
    {
      var row := routes[i];
      if !window(row) {
        continue;
      }
      saw := true;
      assert row in routes;
      if follows(row) {
        return true, true;
      }
    }
    forall r | r in rows && IsActiveRoute(r) ensures !(window(r) && follows(r)) && (window(r) ==> saw) {
      assert r in routes;
    }
    if saw {
      var k :| 0 <= k < |routes| && window(routes[k]);
      assert routes[k] in routes;
    }
    return false, saw;
  }

  // ----- The verdict of the handoff -----

  datatype Fault = HandoffNotProven | NotAccepted

  datatype Handoff = Handoff(plan: Option<string>, failed: seq<Fault>) {
    predicate Passes() {
      failed == []
    }
  }

  /** From the avoidance onset to the recovery, or for ever. */
  function Window(b: Boundary): Row -> bool
    requires b.avoidanceStart.Some?
  {
    InWindow(b.avoidanceStart.value, b.recoveryStart)
  }

  function CommittedPlan(rows: seq<Row>, b: Boundary): Option<string> {
    if b.avoidanceStart.None? then None else FirstPlan(rows, Window(b), IsValidRoute)
  }

  ghost predicate WasAccepted(rows: seq<Row>, id: string, b: Boundary)
    requires b.avoidanceStart.Some?
  {
    SomeIn(rows, IsStatus, Window(b), Accepts(id))
  }

  ghost predicate WasFollowed(rows: seq<Row>, id: string, b: Boundary)
    requires b.avoidanceStart.Some?
  {
    SomeIn(rows, IsActiveRoute, Window(b), Follows(id))
  }

  ghost predicate SawActiveRoute(rows: seq<Row>, b: Boundary)
    requires b.avoidanceStart.Some?
  {
    SomeIn(rows, IsActiveRoute, Window(b), AnyRow)
  }

  ghost function HandoffOf(rows: seq<Row>, b: Boundary): Handoff {
    match CommittedPlan(rows, b)
    case None => Handoff(None, [])
    case Some(id) =>
      var proven := WasFollowed(rows, id, b) || (!SawActiveRoute(rows, b) && WasAccepted(rows, id, b));
      Handoff(Some(id),
              if !proven then [HandoffNotProven] else if !WasAccepted(rows, id, b) then [NotAccepted] else [])
  }

  /** `_evaluate_l4_handoff` */
  method EvaluateHandoff(rows: seq<Row>, b: Boundary) returns (h: Handoff)
    ensures h == HandoffOf(rows, b)
  {
    if b.avoidanceStart.None? {
      return Handoff(None, []);
    }
    var window := InWindow(b.avoidanceStart.value, b.recoveryStart);
    var plan := FindCommittedPlan(rows, window, IsValidRoute);
    if plan.None? {
      return Handoff(None, []);
    }
    var accepted := FindAcceptance(rows, window, Accepts(plan.value));
    var matched, saw := FindActiveRoute(rows, window, Follows(plan.value));
    if !matched && !saw && accepted {
      matched := true;
    }
    var failed := [];
    if !matched {
      failed := failed + [HandoffNotProven];
    } else if !accepted {
      failed := failed + [NotAccepted];
    }
    return Handoff(plan, failed);
  }

  // ----- What it means -----

  /** The committed plan is a valid one of the window, and none in the window is earlier. */
  lemma FirstPlanIsEarliest(rows: seq<Row>, window: Row -> bool, valid: Row -> bool)
    ensures FirstPlan(rows, window, valid).None? <==> !SomeIn(rows, IsPlan, window, valid)
    ensures FirstPlan(rows, window, valid).Some? ==>
              exists first :: first in rows && IsPlan(first) && window(first) && valid(first)
                && FirstPlan(rows, window, valid) == Some(first.planId)
                && forall r :: r in rows && IsPlan(r) && window(r) && valid(r) ==> first.t <= r.t
  {
    var c := Candidates(rows, IsPlan, window, valid);
    SortSorted(Time, Filter(IsPlan, rows));
    FilterSorted(Time, Both(window, valid), EventsOf(IsPlan, rows));
    forall r ensures r in c <==> r in rows && IsPlan(r) && window(r) && valid(r) {
      assert r in EventsOf(IsPlan, rows) <==> r in rows && IsPlan(r);
    }
    if c != [] {
      assert c[0] in c;
      forall r | r in c ensures c[0].t <= r.t {
        var k :| 0 <= k < |c| && c[k] == r;
        assert Time(c[0]) <= Time(c[k]);
      }
    }
  }

  /** The handoff passes exactly when nothing was committed, or the committed plan was accepted and it, or
      no active route at all, was seen in the window. */
  lemma HandoffPassesIff(rows: seq<Row>, b: Boundary)
    ensures HandoffOf(rows, b).Passes() <==>
              || CommittedPlan(rows, b).None?
              || (WasAccepted(rows, CommittedPlan(rows, b).value, b)
                  && (WasFollowed(rows, CommittedPlan(rows, b).value, b) || !SawActiveRoute(rows, b)))
  {
  }

  lemma FirstPlanUpToStop(rows: seq<Row>, window: Row -> bool, valid: Row -> bool, stop: real)
    requires forall r :: window(r) ==> r.t <= stop
    ensures FirstPlan(Slice(rows, stop), window, valid) == FirstPlan(rows, window, valid)
  {
    var late := Filter(Beyond(Time, stop), EventsOf(IsPlan, rows));
    EventsSplitAtStop(IsPlan, rows, stop);
    forall r | r in late ensures !Both(window, valid)(r) {
      assert Beyond(Time, stop)(r) && Time(r) == r.t;
    }
    FilterIgnoresTail(Both(window, valid), EventsOf(IsPlan, Slice(rows, stop)), late);
  }

  lemma SomeUpToStop(rows: seq<Row>, kind: Row -> bool, window: Row -> bool, p: Row -> bool, stop: real)
    requires forall r :: window(r) ==> r.t <= stop
    ensures SomeIn(Slice(rows, stop), kind, window, p) == SomeIn(rows, kind, window, p)
  {
    SliceMembers(rows, stop);
  }

  /** The recovery closes the window no later than the stop. */
  ghost predicate ClosedByStop(b: Boundary) {
    b.stop.Some? && b.recoveryStart.Some? && b.recoveryStart.value <= b.stop.value
  }

  lemma CommittedUpToStop(rows: seq<Row>, b: Boundary)
    requires ClosedByStop(b)
    ensures CommittedPlan(Slice(rows, b.stop.value), b) == CommittedPlan(rows, b)
  {
    if b.avoidanceStart.Some? {
      FirstPlanUpToStop(rows, Window(b), IsValidRoute, b.stop.value);
    }
  }

  lemma ProofsUpToStop(rows: seq<Row>, id: string, b: Boundary)
    requires ClosedByStop(b) && b.avoidanceStart.Some?
    ensures WasAccepted(Slice(rows, b.stop.value), id, b) == WasAccepted(rows, id, b)
    ensures WasFollowed(Slice(rows, b.stop.value), id, b) == WasFollowed(rows, id, b)
    ensures SawActiveRoute(Slice(rows, b.stop.value), b) == SawActiveRoute(rows, b)
  {
    SomeUpToStop(rows, IsStatus, Window(b), Accepts(id), b.stop.value);
    SomeUpToStop(rows, IsActiveRoute, Window(b), Follows(id), b.stop.value);
    SomeUpToStop(rows, IsActiveRoute, Window(b), AnyRow, b.stop.value);
  }

  /** When the recovery closes the window, the handoff on the slice is the handoff on the whole trace. */
  lemma HandoffNeedsNoSlice(rows: seq<Row>, b: Boundary)
    requires ClosedByStop(b)
    ensures HandoffOf(Slice(rows, b.stop.value), b) == HandoffOf(rows, b)
  {
    CommittedUpToStop(rows, b);
    if CommittedPlan(rows, b).Some? {
      ProofsUpToStop(rows, CommittedPlan(rows, b).value, b);
    }
  }

  /** With this handoff as the L4 oracle, a passed own-recovery run whose avoidance phase committed an M5
      plan has an execution status, between avoidance and recovery, that accepts the earliest such plan; and
      that plan was an active route there, unless no active route was seen there at all. */
  lemma PassedRunHandedOver(rows: seq<Row>, scenario: Scenario, report: Report, o: Oracles)
    returns (status: Row)
    requires scenario.fastTerminal == "" || scenario.fastTerminal == OWN_RECOVERY_ENTRY
    requires forall s, b :: o.l4(s, b).passed ==> HandoffOf(s, b).Passes()
    requires Passed(rows, scenario, report, o)
    requires CommittedPlan(rows, OwnBoundary(rows, scenario.minTransit)).Some?
    ensures var b := OwnBoundary(rows, scenario.minTransit);
            && status in rows && IsStatus(status) && IsAccepted(status)
            && CommittedPlan(rows, b) == Some(AcceptedRouteId(status))
            && b.avoidanceStart.Some? && b.recoveryStart.Some?
            && b.avoidanceStart.value <= status.t <= b.recoveryStart.value
            && (WasFollowed(rows, AcceptedRouteId(status), b) || !SawActiveRoute(rows, b))
  {
    var b := OwnBoundary(rows, scenario.minTransit);
    PassHandsOver(rows, scenario, report, o);
    ReadyBoundaryIsOrdered(rows, scenario.minTransit);
    HandoffNeedsNoSlice(rows, b);
    HandoffPassesIff(rows, b);
    status := AcceptingStatus(rows, CommittedPlan(rows, b).value, b);
  }

  lemma AcceptingStatus(rows: seq<Row>, id: string, b: Boundary) returns (status: Row)
    requires b.avoidanceStart.Some? && WasAccepted(rows, id, b)
    ensures status in rows && IsStatus(status) && IsAccepted(status) && AcceptedRouteId(status) == id
    ensures b.avoidanceStart.value <= status.t && (b.recoveryStart.Some? ==> status.t <= b.recoveryStart.value)
  {
    status :| status in rows && IsStatus(status) && Window(b)(status) && Accepts(id)(status);
  }

  lemma PassHandsOver(rows: seq<Row>, scenario: Scenario, report: Report, o: Oracles)
    requires scenario.fastTerminal == "" || scenario.fastTerminal == OWN_RECOVERY_ENTRY
    requires Passed(rows, scenario, report, o)
    ensures OwnBoundary(rows, scenario.minTransit).ready
    ensures var b := OwnBoundary(rows, scenario.minTransit);
            o.l4(Slice(rows, b.stop.value), b).passed
  {
    PassHoldsEverything(rows, scenario, report, o);
    PassNeedsEveryOracle(rows, scenario, report, o);
  }
}
