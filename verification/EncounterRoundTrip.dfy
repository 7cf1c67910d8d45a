/** Generator and evaluator undo each other: the CPA measured on a generated encounter is the CPA it
    was built with. */
module EncounterRoundTrip {
  import opened RealMath
  import opened Options
  import opened Cpa
  import opened Products
  import opened EncounterGeometry

  // ----- The evaluator's reading of a scenario -----

  /** `_latlon_to_xy_m` */
  function LatLonToXy(cosDeg: real -> real, lat: real, lon: real, lat0: real, lon0: real): Vec {
    Vec((lon - lon0) * M_PER_DEG_LAT * cosDeg(lat0), (lat - lat0) * M_PER_DEG_LAT)
  }

  /** `_nav_velocity_mps` */
  function NavVelocity(course: Vec, sogKn: real): Vec {
    course.Times(SpeedMs(sogKn))
  }

  /** The arithmetic of `compute_no_action_baseline` for one target, with scenario origin (lat0, lon0). */
  function Baseline(sqrt: real -> real, cosDeg: real -> real, own: OwnState, target: TargetSpawn,
                    lat0: real, lon0: real): Approach
  {
    CpaTcpa(sqrt,
            LatLonToXy(cosDeg, target.lat, target.lon, lat0, lon0)
              .Minus(LatLonToXy(cosDeg, own.lat, own.lon, lat0, lon0)),
            NavVelocity(target.course, target.sogKn).Minus(NavVelocity(own.heading, own.sogKn)))
  }

  /** `scenario_conflict_valid` */
  predicate ConflictValid(a: Approach, floor: real) {
    a.tcpa >= 0.0 && a.dcpa < floor
  }

  // ----- Scalar steps -----

  lemma DivideBack(x: real, d: real)
    requires d != 0.0
    ensures x / d * d == x
  {
  }

  lemma RootOfSquare(sqrt: real -> real, x: real, q: real)
    requires IsSqrt(sqrt) && q == Mul(x, x)
    ensures sqrt(q) == Abs(x)
  {
    SquareSign(x);
    var y, z := sqrt(q), Abs(x);
    assert Mul(z, z) == Mul(x, x);
    assert y >= 0.0 && Mul(y, y) == q;
    if y > z {
      SquareGrows(y, z);
    } else if z > y {
      SquareGrows(z, y);
    }
  }

  lemma NormPositive(sqrt: real -> real, v: Vec)
    requires IsSqrt(sqrt)
    ensures Norm(sqrt, v) >= 0.0 && Mul(Norm(sqrt, v), Norm(sqrt, v)) == v.Dot(v)
    ensures v.Dot(v) > 0.0 ==> Norm(sqrt, v) > 0.0
  {
  }

  lemma SquaresOrder(a: real, b: real)
    requires 0.0 <= a <= b
    ensures Mul(a, a) <= Mul(b, b)
  {
  }

  /** A relative speed that passes the evaluator's guard passes the generator's. */
  lemma GuardsNest(sqrt: real -> real, v: Vec)
    requires IsSqrt(sqrt) && v.Dot(v) > SPEED_SQ_GUARD
    ensures Norm(sqrt, v) > OFFSET_SPEED_GUARD
  {
    NormPositive(sqrt, v);
    var m := Norm(sqrt, v);
    assert Mul(OFFSET_SPEED_GUARD, OFFSET_SPEED_GUARD) < SPEED_SQ_GUARD;
    if m <= OFFSET_SPEED_GUARD {
      SquaresOrder(m, OFFSET_SPEED_GUARD);
    }
  }

  // ----- The lateral offset -----

  /** The offset is perpendicular to the relative velocity and exactly `cpa` long, or absent at and below the
      generator's own speed guard. */
  lemma OffsetIsPerpendicular(sqrt: real -> real, s: Vec, v: Vec, cpa: real)
    requires IsSqrt(sqrt)
    ensures var u := OffsetSpawn(sqrt, s, v, cpa).Minus(s);
            && u.Dot(v) == 0.0
            && u.Dot(u) == if Norm(sqrt, v) > OFFSET_SPEED_GUARD then Mul(cpa, cpa) else 0.0
  {
    NormPositive(sqrt, v);
    var m := Norm(sqrt, v);
    if m > OFFSET_SPEED_GUARD && cpa != 0.0 {
      var pe, pn := -v.n / m, v.e / m;
      DivideBack(-v.n, m);
      DivideBack(v.e, m);
      UnitPerpendicular(pe, pn, v, m);
      var u := OffsetSpawn(sqrt, s, v, cpa).Minus(s);
      assert u == Vec(cpa * pe, cpa * pn);
      assert u.Dot(v) == cpa * (pe * v.e + pn * v.n);
      assert u.Dot(u) == Mul(cpa, cpa) * (pe * pe + pn * pn);
    } else {
      assert OffsetSpawn(sqrt, s, v, cpa) == s;
      assert Mul(0.0, 0.0) == 0.0;
    }
  }

  lemma UnitPerpendicular(pe: real, pn: real, v: Vec, m: real)
    requires m > 0.0 && pe * m == -v.n && pn * m == v.e && Mul(m, m) == v.Dot(v)
    ensures pe * v.e + pn * v.n == 0.0
    ensures pe * pe + pn * pn == 1.0
  {
    assert pe * v.e + pn * v.n == pe * (pn * m) - pn * (pe * m);
    var q := pe * pe + pn * pn;
    assert (pe * m) * (pe * m) + (pn * m) * (pn * m) == q * (m * m);
    assert (pe * m) * (pe * m) == v.n * v.n && (pn * m) * (pn * m) == v.e * v.e;
    var k := m * m;
    MulSign(m, m);
    assert Mul(q - 1.0, k) == 0.0;
    MulSign(q - 1.0, k);
  }

  lemma FastOffset(sqrt: real -> real, s: Vec, v: Vec, cpa: real) returns (u: Vec)
    requires IsSqrt(sqrt) && v.Dot(v) > SPEED_SQ_GUARD
    ensures OffsetSpawn(sqrt, s, v, cpa) == s.Plus(u) && u.Dot(v) == 0.0 && u.Dot(u) == Mul(cpa, cpa)
  {
    u := OffsetSpawn(sqrt, s, v, cpa).Minus(s);
    GuardsNest(sqrt, v);
    OffsetIsPerpendicular(sqrt, s, v, cpa);
    PlusMinus(s, OffsetSpawn(sqrt, s, v, cpa));
  }

  lemma PlusMinus(s: Vec, p: Vec)
    ensures s.Plus(p.Minus(s)) == p
  {
  }

  /** A spawn that would collide after `t`, once shifted, passes at |cpa| after the same `t`. */
  lemma OffsetSetsTheCpa(sqrt: real -> real, s: Vec, v: Vec, cpa: real, t: real)
    requires IsSqrt(sqrt) && v.Dot(v) > SPEED_SQ_GUARD
    requires t >= 0.0 && s.Plus(v.Times(t)) == Vec(0.0, 0.0)
    ensures CpaTcpa(sqrt, OffsetSpawn(sqrt, s, v, cpa), v) == Approach(Abs(cpa), t)
  {
    var u := FastOffset(sqrt, s, v, cpa);
    PassesAtOffset(sqrt, s, u, v, cpa, t);
  }

  lemma PassesAtOffset(sqrt: real -> real, s: Vec, u: Vec, v: Vec, cpa: real, t: real)
    requires IsSqrt(sqrt) && v.Dot(v) > SPEED_SQ_GUARD
    requires t >= 0.0 && s.Plus(v.Times(t)) == Vec(0.0, 0.0)
    requires u.Dot(v) == 0.0 && u.Dot(u) == Mul(cpa, cpa)
    ensures CpaTcpa(sqrt, s.Plus(u), v) == Approach(Abs(cpa), t)
  {
    TcpaOfCollision(s, u, v, t);
    CpaAt(sqrt, s.Plus(u), v, t);
    OffsetRemains(s, u, v, t);
    RootOfSquare(sqrt, cpa, u.Dot(u));
  }

  lemma OffsetRemains(s: Vec, u: Vec, v: Vec, t: real)
    requires s.Plus(v.Times(t)) == Vec(0.0, 0.0)
    ensures s.Plus(u).Plus(v.Times(t)) == u
  {
  }

  lemma CpaAt(sqrt: real -> real, p: Vec, v: Vec, t: real)
    requires v.Dot(v) > SPEED_SQ_GUARD && t >= 0.0 && -(p.Dot(v) / v.Dot(v)) == t
    ensures CpaTcpa(sqrt, p, v) == Approach(Norm(sqrt, p.Plus(v.Times(t))), t)
  {
  }

  lemma TcpaOfCollision(s: Vec, u: Vec, v: Vec, t: real)
    requires v.Dot(v) > 0.0 && u.Dot(v) == 0.0
    requires s.Plus(v.Times(t)) == Vec(0.0, 0.0)
    ensures -(s.Plus(u).Dot(v) / v.Dot(v)) == t
  {
  }

  // ----- Positions and velocities through the scenario file -----

  /** The evaluator recovers the generated offset exactly when its origin has the cosine of own ship's
      latitude, or the offset has no east component. */
  lemma OffsetRecoveredIff(cosDeg: real -> real, own: OwnState, offset: Vec, lat0: real, lon0: real)
    requires cosDeg(own.lat) != 0.0
    ensures var ll := OffsetToLatLon(cosDeg, own.lat, own.lon, offset);
            LatLonToXy(cosDeg, ll.0, ll.1, lat0, lon0).Minus(LatLonToXy(cosDeg, own.lat, own.lon, lat0, lon0)) == offset
            <==> offset.e == 0.0 || cosDeg(lat0) == cosDeg(own.lat)
  {
  }

  lemma ScaledBack(v: Vec, m: real)
    requires m != 0.0
    ensures Vec(v.e / m, v.n / m).Times(m) == v
  {
    DivideBack(v.e, m);
    DivideBack(v.n, m);
  }

  lemma SpeedReadBack(m: real)
    ensures SpeedMs(m / KN_MS) == m
  {
  }

  lemma CourseReadsBack(v: Vec, m: real, course: Vec)
    requires m != 0.0 && course == Vec(v.e / m, v.n / m)
    ensures NavVelocity(course, m / KN_MS) == v
  {
    SpeedReadBack(m);
    ScaledBack(v, m);
  }

  lemma ZeroNorm(sqrt: real -> real, v: Vec)
    requires IsSqrt(sqrt) && Norm(sqrt, v) == 0.0
    ensures v == Vec(0.0, 0.0)
  {
    NormPositive(sqrt, v);
    SquareNonneg(v);
  }

  lemma StandingTarget()
    ensures NavVelocity(Vec(0.0, 1.0), 0.0 / KN_MS) == Vec(0.0, 0.0)
  {
  }

  /** Course and speed written to the file read back as the same velocity. */
  lemma VelocityRecovered(sqrt: real -> real, v: Vec)
    requires IsSqrt(sqrt)
    ensures NavVelocity(CourseOf(sqrt, v), Norm(sqrt, v) / KN_MS) == v
  {
    if Norm(sqrt, v) == 0.0 {
      ZeroNorm(sqrt, v);
      StandingTarget();
    } else {
      CourseReadsBack(v, Norm(sqrt, v), CourseOf(sqrt, v));
    }
  }

  /** What `generate_encounter` wrote, read back by the evaluator with a matching origin. */
  lemma BaselineOfSpawn(sqrt: real -> real, cosDeg: real -> real, own: OwnState, p: Vec, vt: Vec,
                        lat0: real, lon0: real)
    requires IsSqrt(sqrt) && cosDeg(own.lat) != 0.0
    requires p.e == 0.0 || cosDeg(lat0) == cosDeg(own.lat)
    ensures Baseline(sqrt, cosDeg, own, SpawnAt(sqrt, cosDeg, own, p, vt), lat0, lon0) ==
            CpaTcpa(sqrt, p, vt.Minus(OwnVelocity(own)))
  {
    OffsetRecoveredIff(cosDeg, own, p, lat0, lon0);
    VelocityRecovered(sqrt, vt);
  }

  // ----- The round trip, intercept rules -----

  lemma InterceptClosesTheRange(s: Vec, vo: Vec, x: real)
    requires x > 0.0
    ensures var v := vo.Minus(s.Times(x)).Minus(vo);
            1.0 / x > 0.0 && s.Plus(v.Times(1.0 / x)) == Vec(0.0, 0.0)
  {
  }

  /** On the construction's own vectors: DCPA is |cpa| and TCPA is the intercept time exactly when the
      relative speed passes the evaluator's guard. */
  lemma InterceptRoundTripIff(sqrt: real -> real, s: Vec, vo: Vec, st: real, cpa: real)
    requires IsSqrt(sqrt) && SolveIntercept(sqrt, s, vo, st).Ok?
    ensures var x := SolveIntercept(sqrt, s, vo, st).value;
            var v := vo.Minus(s.Times(x)).Minus(vo);
            x > 0.0 &&
            (CpaTcpa(sqrt, OffsetSpawn(sqrt, s, v, cpa), v) == Approach(Abs(cpa), 1.0 / x)
             <==> v.Dot(v) > SPEED_SQ_GUARD)
  {
    var x := SolveIntercept(sqrt, s, vo, st).value;
    var v := vo.Minus(s.Times(x)).Minus(vo);
    InterceptIsValid(sqrt, s, vo, st);
    InterceptClosesTheRange(s, vo, x);
    if v.Dot(v) > SPEED_SQ_GUARD {
      OffsetSetsTheCpa(sqrt, s, v, cpa, 1.0 / x);
    }
  }

  /** What a successful intercept construction consists of. */
  lemma GeneratedParts(sqrt: real -> real, cosDeg: real -> real, d: Defaults, own: OwnState, approach: Vec,
                       rangeNm: Option<real>, constructCpa: Option<real>)
    requires cosDeg(own.lat) != 0.0 && d.mode == Intercept
    requires GenerateWith(sqrt, cosDeg, d, own, approach, rangeNm, constructCpa).Ok?
    ensures var vo := OwnVelocity(own);
            var s := SpawnDirection(own, approach, RangeM(d, rangeNm));
            var solved := SolveIntercept(sqrt, s, vo, TargetSpeed(d, own));
            && solved.Ok?
            && var vt := vo.Minus(s.Times(solved.value));
               GenerateWith(sqrt, cosDeg, d, own, approach, rangeNm, constructCpa).value ==
               SpawnAt(sqrt, cosDeg, own, OffsetSpawn(sqrt, s, vt.Minus(vo), BuiltCpa(d, constructCpa)), vt)
  {
  }

  /** End to end, through the latitude, longitude, course and speed of the generated target: with an
      origin on own ship's latitude the evaluator measures |construct_cpa_m| and the intercept time
      back, exactly when the relative speed |s| x passes its guard. */
  lemma GeneratedEncounterMeasuresBack(
      sqrt: real -> real, cosDeg: real -> real, d: Defaults, own: OwnState, approach: Vec,
      rangeNm: Option<real>, constructCpa: Option<real>, lat0: real, lon0: real)
    requires IsSqrt(sqrt) && cosDeg(own.lat) != 0.0 && cosDeg(lat0) == cosDeg(own.lat)
    requires d.mode == Intercept
    requires GenerateWith(sqrt, cosDeg, d, own, approach, rangeNm, constructCpa).Ok?
    ensures var s := SpawnDirection(own, approach, RangeM(d, rangeNm));
            var solved := SolveIntercept(sqrt, s, OwnVelocity(own), TargetSpeed(d, own));
            var spawn := GenerateWith(sqrt, cosDeg, d, own, approach, rangeNm, constructCpa).value;
            && solved.Ok? && solved.value > 0.0
            && (Baseline(sqrt, cosDeg, own, spawn, lat0, lon0)
                  == Approach(Abs(BuiltCpa(d, constructCpa)), 1.0 / solved.value)
                <==> s.Times(solved.value).Dot(s.Times(solved.value)) > SPEED_SQ_GUARD)
            && (s.Times(solved.value).Dot(s.Times(solved.value)) <= SPEED_SQ_GUARD ==>
                  Baseline(sqrt, cosDeg, own, spawn, lat0, lon0).tcpa == -1.0)
  {
    var s := SpawnDirection(own, approach, RangeM(d, rangeNm));
    GeneratedParts(sqrt, cosDeg, d, own, approach, rangeNm, constructCpa);
    MeasuredParts(sqrt, cosDeg, own, s, OwnVelocity(own), TargetSpeed(d, own), BuiltCpa(d, constructCpa), lat0, lon0);
  }

  /** So a generated encounter is a valid conflict for the evaluator exactly when the relative speed passes
      its guard and the CPA it was built with is below the scenario's floor. */
  lemma GeneratedConflictValidIff(
      sqrt: real -> real, cosDeg: real -> real, d: Defaults, own: OwnState, approach: Vec,
      rangeNm: Option<real>, constructCpa: Option<real>, lat0: real, lon0: real, floor: real)
    requires IsSqrt(sqrt) && cosDeg(own.lat) != 0.0 && cosDeg(lat0) == cosDeg(own.lat)
    requires d.mode == Intercept
    requires GenerateWith(sqrt, cosDeg, d, own, approach, rangeNm, constructCpa).Ok?
    ensures var s := SpawnDirection(own, approach, RangeM(d, rangeNm));
            var solved := SolveIntercept(sqrt, s, OwnVelocity(own), TargetSpeed(d, own));
            var spawn := GenerateWith(sqrt, cosDeg, d, own, approach, rangeNm, constructCpa).value;
            && solved.Ok?
            && (ConflictValid(Baseline(sqrt, cosDeg, own, spawn, lat0, lon0), floor)
                <==> s.Times(solved.value).Dot(s.Times(solved.value)) > SPEED_SQ_GUARD
                     && Abs(BuiltCpa(d, constructCpa)) < floor)
  {
    GeneratedEncounterMeasuresBack(sqrt, cosDeg, d, own, approach, rangeNm, constructCpa, lat0, lon0);
    var s := SpawnDirection(own, approach, RangeM(d, rangeNm));
    Reciprocal(SolveIntercept(sqrt, s, OwnVelocity(own), TargetSpeed(d, own)).value);
  }

  lemma MeasuredParts(sqrt: real -> real, cosDeg: real -> real, own: OwnState, s: Vec, vo: Vec, st: real, cpa: real,
                      lat0: real, lon0: real)
    requires IsSqrt(sqrt) && cosDeg(own.lat) != 0.0 && cosDeg(lat0) == cosDeg(own.lat)
    requires vo == OwnVelocity(own)
    requires SolveIntercept(sqrt, s, vo, st).Ok?
    ensures var x := SolveIntercept(sqrt, s, vo, st).value;
            var vt := vo.Minus(s.Times(x));
            && x > 0.0
            && (Baseline(sqrt, cosDeg, own,
                         SpawnAt(sqrt, cosDeg, own, OffsetSpawn(sqrt, s, vt.Minus(vo), cpa), vt), lat0, lon0)
                  == Approach(Abs(cpa), 1.0 / x)
                <==> s.Times(x).Dot(s.Times(x)) > SPEED_SQ_GUARD)
            && (s.Times(x).Dot(s.Times(x)) <= SPEED_SQ_GUARD ==>
                  Baseline(sqrt, cosDeg, own,
                           SpawnAt(sqrt, cosDeg, own, OffsetSpawn(sqrt, s, vt.Minus(vo), cpa), vt), lat0, lon0).tcpa
                    == -1.0)
  {
    var x := SolveIntercept(sqrt, s, vo, st).value;
    var vt := vo.Minus(s.Times(x));
    InterceptRoundTripIff(sqrt, s, vo, st, cpa);
    BaselineOfSpawn(sqrt, cosDeg, own, OffsetSpawn(sqrt, s, vt.Minus(vo), cpa), vt, lat0, lon0);
    OppositeSameNorm(s.Times(x), vt.Minus(vo));
  }

  /** A caller's range and CPA are used, and the rule's when the caller gives none: for the intercept rules 1.5 nm
      and no offset head-on, and 2 nm and 300 m on a crossing. */
  lemma InterceptDefaults(rule: string, rangeNm: Option<real>, constructCpa: Option<real>)
    requires DefaultsOf(rule).Some? && rule != "overtaking"
    ensures var d := DefaultsOf(rule).value;
            && d.mode == Intercept
            && RangeM(d, rangeNm)
               == 1852.0 * (if rangeNm.Some? then rangeNm.value else if rule == "head_on" then 1.5 else 2.0)
            && BuiltCpa(d, constructCpa)
               == if constructCpa.Some? then constructCpa.value else if rule == "head_on" then 0.0 else 300.0
  {
  }

  /** Every rule but overtaking, from its name on, with the CPA the caller or the rule asked for. */
  lemma RuleMeasuresBack(
      sqrt: real -> real, cosDeg: real -> real, rule: string, own: OwnState, approach: Vec,
      rangeNm: Option<real>, constructCpa: Option<real>, lat0: real, lon0: real)
    returns (range: real, cpa: real)
    requires IsSqrt(sqrt) && cosDeg(own.lat) != 0.0 && cosDeg(lat0) == cosDeg(own.lat)
    requires rule != "overtaking"
    requires GenerateEncounter(sqrt, cosDeg, rule, own, approach, rangeNm, constructCpa).Ok?
    ensures range == 1852.0 * (if rangeNm.Some? then rangeNm.value else if rule == "head_on" then 1.5 else 2.0)
    ensures cpa == if constructCpa.Some? then constructCpa.value else if rule == "head_on" then 0.0 else 300.0
    ensures var s := SpawnDirection(own, approach, range);
            var solved := SolveIntercept(sqrt, s, OwnVelocity(own), SpeedMs(own.sogKn));
            var spawn := GenerateEncounter(sqrt, cosDeg, rule, own, approach, rangeNm, constructCpa).value;
            && solved.Ok? && solved.value > 0.0
            && (Baseline(sqrt, cosDeg, own, spawn, lat0, lon0) == Approach(Abs(cpa), 1.0 / solved.value)
                <==> s.Times(solved.value).Dot(s.Times(solved.value)) > SPEED_SQ_GUARD)
            && (s.Times(solved.value).Dot(s.Times(solved.value)) <= SPEED_SQ_GUARD ==>
                  Baseline(sqrt, cosDeg, own, spawn, lat0, lon0).tcpa == -1.0)
  {
    var d := DefaultsOf(rule).value;
    range, cpa := RangeM(d, rangeNm), BuiltCpa(d, constructCpa);
    InterceptDefaults(rule, rangeNm, constructCpa);
    assert TargetSpeed(d, own) == SpeedMs(own.sogKn);
    GeneratedEncounterMeasuresBack(sqrt, cosDeg, d, own, approach, rangeNm, constructCpa, lat0, lon0);
  }

  // ----- Where the target is spawned, and how fast it is -----

  lemma SpawnRange(own: OwnState, approach: Vec, range: real)
    requires IsUnit(own.heading) && IsUnit(approach)
    ensures var s := SpawnDirection(own, approach, range); s.Dot(s) == Mul(range, range)
  {
    var h, v := own.heading, Turned(own.heading, approach);
    assert v.Dot(v) == h.Dot(h) * approach.Dot(approach);
    UnitScales(v, range, range);
  }

  lemma Pythagoras(s: Vec, u: Vec, v: Vec, x: real)
    requires x != 0.0 && u.Dot(v) == 0.0 && v.e == -(x * s.e) && v.n == -(x * s.n)
    ensures s.Plus(u).Dot(s.Plus(u)) == s.Dot(s) + u.Dot(u)
  {
    assert u.Dot(v) == -Mul(x, u.Dot(s));
    ZeroFactor(x, u.Dot(s));
  }

  lemma OffsetFromSpawn(sqrt: real -> real, s: Vec, v: Vec, x: real, cpa: real)
    requires IsSqrt(sqrt) && x != 0.0 && v.e == -(x * s.e) && v.n == -(x * s.n)
    ensures var p := OffsetSpawn(sqrt, s, v, cpa);
            p.Dot(p) == s.Dot(s) + if Norm(sqrt, v) > OFFSET_SPEED_GUARD then Mul(cpa, cpa) else 0.0
  {
    var u := OffsetSpawn(sqrt, s, v, cpa).Minus(s);
    OffsetIsPerpendicular(sqrt, s, v, cpa);
    PlusMinus(s, OffsetSpawn(sqrt, s, v, cpa));
    Pythagoras(s, u, v, x);
  }

  lemma SpeedIsRead(sqrt: real -> real, vt: Vec, st: real)
    requires IsSqrt(sqrt) && vt.Dot(vt) == Mul(st, st)
    ensures Norm(sqrt, vt) == Abs(st)
  {
    RootOfSquare(sqrt, st, vt.Dot(vt));
  }

  /** For the intercept rules the target is spawned at the square root of range squared plus CPA squared from own
      ship (at and below the generator's speed guard at the range itself), with own ship's speed. */
  lemma InterceptSpawnPlace(
      sqrt: real -> real, cosDeg: real -> real, own: OwnState, approach: Vec, s: Vec, x: real, range: real, cpa: real)
    requires IsSqrt(sqrt) && cosDeg(own.lat) != 0.0 && IsUnit(own.heading) && IsUnit(approach)
    requires s == SpawnDirection(own, approach, range)
    requires SolveIntercept(sqrt, s, OwnVelocity(own), SpeedMs(own.sogKn)) == Ok(x)
    ensures var vt := OwnVelocity(own).Minus(s.Times(x));
            var p := OffsetSpawn(sqrt, s, vt.Minus(OwnVelocity(own)), cpa);
            var spawn := SpawnAt(sqrt, cosDeg, own, p, vt);
            var seen := LatLonToXy(cosDeg, spawn.lat, spawn.lon, own.lat, own.lon);
            && seen.Dot(seen) == Mul(range, range)
                 + (if Norm(sqrt, vt.Minus(OwnVelocity(own))) > OFFSET_SPEED_GUARD then Mul(cpa, cpa) else 0.0)
            && spawn.sogKn == Abs(own.sogKn)
  {
    var vo := OwnVelocity(own);
    var vt := vo.Minus(s.Times(x));
    var p := OffsetSpawn(sqrt, s, vt.Minus(vo), cpa);
    InterceptIsValid(sqrt, s, vo, SpeedMs(own.sogKn));
    SpawnRange(own, approach, range);
    OffsetFromSpawn(sqrt, s, vt.Minus(vo), x, cpa);
    SpeedIsRead(sqrt, vt, SpeedMs(own.sogKn));
    SeenFromOwn(sqrt, cosDeg, own, p, vt);
    SpeedInKnots(own.sogKn);
  }

  lemma SeenFromOwn(sqrt: real -> real, cosDeg: real -> real, own: OwnState, p: Vec, vt: Vec)
    requires cosDeg(own.lat) != 0.0
    ensures var spawn := SpawnAt(sqrt, cosDeg, own, p, vt);
            LatLonToXy(cosDeg, spawn.lat, spawn.lon, own.lat, own.lon) == p
  {
    OffsetRecoveredIff(cosDeg, own, p, own.lat, own.lon);
    var zero := LatLonToXy(cosDeg, own.lat, own.lon, own.lat, own.lon);
    assert zero == Vec(0.0, 0.0);
  }

  lemma SpeedInKnots(kn: real)
    ensures Abs(SpeedMs(kn)) / KN_MS == Abs(kn)
  {
  }

  /** The rules by name. */
  lemma RuleSpawnPlace(sqrt: real -> real, cosDeg: real -> real, rule: string, own: OwnState, approach: Vec,
                       rangeNm: Option<real>, constructCpa: Option<real>, range: real, cpa: real)
    requires IsSqrt(sqrt) && cosDeg(own.lat) != 0.0 && IsUnit(own.heading) && IsUnit(approach)
    requires rule != "overtaking"
    requires GenerateEncounter(sqrt, cosDeg, rule, own, approach, rangeNm, constructCpa).Ok?
    requires range == 1852.0 * (if rangeNm.Some? then rangeNm.value else if rule == "head_on" then 1.5 else 2.0)
    requires cpa == if constructCpa.Some? then constructCpa.value else if rule == "head_on" then 0.0 else 300.0
    ensures var spawn := GenerateEncounter(sqrt, cosDeg, rule, own, approach, rangeNm, constructCpa).value;
            var seen := LatLonToXy(cosDeg, spawn.lat, spawn.lon, own.lat, own.lon);
            var v := NavVelocity(spawn.course, spawn.sogKn).Minus(OwnVelocity(own));
            && seen.Dot(seen) == Mul(range, range)
                 + (if Norm(sqrt, v) > OFFSET_SPEED_GUARD then Mul(cpa, cpa) else 0.0)
            && spawn.sogKn == Abs(own.sogKn)
  {
    var d, vo := DefaultsOf(rule).value, OwnVelocity(own);
    InterceptDefaults(rule, rangeNm, constructCpa);
    GeneratedParts(sqrt, cosDeg, d, own, approach, rangeNm, constructCpa);
    var s := SpawnDirection(own, approach, range);
    var x := SolveIntercept(sqrt, s, vo, SpeedMs(own.sogKn)).value;
    assert TargetSpeed(d, own) == SpeedMs(own.sogKn);
    InterceptSpawnPlace(sqrt, cosDeg, own, approach, s, x, range, cpa);
    VelocityRecovered(sqrt, vo.Minus(s.Times(x)));
  }

  lemma OppositeSameNorm(a: Vec, b: Vec)
    requires a.e + b.e == 0.0 && a.n + b.n == 0.0
    ensures a.Dot(a) == b.Dot(b)
  {
  }

  // ----- Overtaking -----

  /** The unit vector to starboard of heading `h`. */
  function Starboard(h: Vec): Vec {
    Vec(h.n, -h.e)
  }

  /** The position `along` ahead and `across` to starboard. */
  function Place(h: Vec, along: real, across: real): Vec {
    h.Times(along).Plus(Starboard(h).Times(across))
  }

  /** How far the generator shifts the spawn to starboard when own ship closes at `closing`. */
  function Shift(closing: real, cpa: real): real {
    if Abs(closing) <= OFFSET_SPEED_GUARD then 0.0 else if closing > 0.0 then cpa else -cpa
  }

  /** What the evaluator measures on a target on own course, `along` ahead and `across` to starboard, which own
      ship closes at `closing`. */
  ghost predicate OvertakeMeasured(a: Approach, along: real, across: real, closing: real) {
    if Mul(closing, closing) > SPEED_SQ_GUARD then
      && a.tcpa == along / closing
      && (a.tcpa >= 0.0 ==> a.dcpa == Abs(across))
      && (a.tcpa < 0.0 ==> a.dcpa >= 0.0 && Mul(a.dcpa, a.dcpa) == Mul(along, along) + Mul(across, across))
    else
      a.tcpa == -1.0 && a.dcpa >= 0.0 && Mul(a.dcpa, a.dcpa) == Mul(along, along) + Mul(across, across)
  }

  lemma PlaceSquare(h: Vec, x: real, y: real)
    requires IsUnit(h)
    ensures Place(h, x, y).Dot(Place(h, x, y)) == Mul(x, x) + Mul(y, y)
  {
    var p := Place(h, x, y);
    assert p.e * p.e == (x * x) * (h.e * h.e) + 2.0 * (x * y) * (h.e * h.n) + (y * y) * (h.n * h.n);
    assert p.n * p.n == (x * x) * (h.n * h.n) - 2.0 * (x * y) * (h.e * h.n) + (y * y) * (h.e * h.e);
    assert p.Dot(p) == (x * x) * h.Dot(h) + (y * y) * h.Dot(h);
  }

  lemma PlaceAlong(h: Vec, x: real, y: real, k: real)
    requires IsUnit(h)
    ensures Place(h, x, y).Dot(h.Times(k)) == Mul(x, k)
  {
    assert Place(h, x, y).Dot(h.Times(k)) == (x * k) * h.Dot(h);
  }

  lemma PlaceMoves(h: Vec, x: real, y: real, k: real, t: real)
    ensures Place(h, x, y).Plus(h.Times(k).Times(t)) == Place(h, x + t * k, y)
  {
    assert t * (k * h.e) == (t * k) * h.e && t * (k * h.n) == (t * k) * h.n;
  }

  lemma RelativeSpeed(sqrt: real -> real, h: Vec, closing: real)
    requires IsSqrt(sqrt) && IsUnit(h)
    ensures var v := h.Times(-closing);
            v.Dot(v) == Mul(closing, closing) && Norm(sqrt, v) == Abs(closing)
  {
    var v := h.Times(-closing);
    UnitScales(h, -closing, -closing);
    assert Mul(-closing, -closing) == Mul(closing, closing);
    RootOfSquare(sqrt, closing, v.Dot(v));
  }

  lemma SignedRatio(x: real, k: real, y: real)
    requires k != 0.0 && x == k * y
    ensures x / Abs(k) == if k > 0.0 then y else -y
  {
    DivideBack(x, Abs(k));
    var q := x / Abs(k);
    if k > 0.0 {
      ZeroFactor(k, q - y);
    } else {
      ZeroFactor(k, q + y);
    }
  }

  lemma ZeroFactor(a: real, w: real)
    requires a != 0.0 && Mul(a, w) == 0.0
    ensures w == 0.0
  {
  }

  lemma PlaceShifts(h: Vec, along: real, across: real, k: real)
    ensures Place(h, along, across).Plus(Starboard(h).Times(k)) == Place(h, along, across + k)
  {
  }

  lemma BeamUnit(h: Vec, closing: real)
    requires closing != 0.0
    ensures var v := h.Times(-closing);
            Vec(-v.n / Abs(closing), v.e / Abs(closing))
            == if closing > 0.0 then Starboard(h) else Starboard(h).Times(-1.0)
  {
    var v := h.Times(-closing);
    SignedRatio(-v.n, closing, h.n);
    SignedRatio(v.e, closing, -h.e);
  }

  /** The generator's perpendicular is own ship's beam. */
  lemma OffsetIsAbeam(sqrt: real -> real, h: Vec, s: Vec, closing: real, cpa: real)
    requires IsSqrt(sqrt) && IsUnit(h)
    ensures OffsetSpawn(sqrt, s, h.Times(-closing), cpa) == s.Plus(Starboard(h).Times(Shift(closing, cpa)))
  {
    RelativeSpeed(sqrt, h, closing);
    if Abs(closing) > OFFSET_SPEED_GUARD && cpa != 0.0 {
      BeamUnit(h, closing);
      assert closing < 0.0 ==> Starboard(h).Times(-1.0).Times(cpa) == Starboard(h).Times(-cpa);
    } else {
      assert s.Plus(Starboard(h).Times(0.0)) == s;
    }
  }

  lemma ApproachTime(h: Vec, along: real, across: real, closing: real)
    requires IsUnit(h) && Mul(closing, closing) > 0.0
    ensures var p, v := Place(h, along, across), h.Times(-closing);
            v.Dot(v) == Mul(closing, closing) && -(p.Dot(v) / v.Dot(v)) == along / closing
  {
    PlaceAlong(h, along, across, -closing);
    UnitScales(h, -closing, -closing);
    assert Mul(-closing, -closing) == Mul(closing, closing);
    PassTime(along, closing);
  }

  /** Where the target is when it is abeam. */
  lemma ComesAbeam(h: Vec, along: real, across: real, closing: real)
    requires closing != 0.0
    ensures Place(h, along, across).Plus(h.Times(-closing).Times(along / closing)) == Place(h, 0.0, across)
  {
    DivideBack(along, closing);
    PlaceMoves(h, along, across, -closing, along / closing);
    assert along + (along / closing) * -closing == 0.0;
  }

  lemma AbeamDistance(sqrt: real -> real, h: Vec, across: real)
    requires IsSqrt(sqrt) && IsUnit(h)
    ensures Norm(sqrt, Place(h, 0.0, across)) == Abs(across)
  {
    PlaceSquare(h, 0.0, across);
    assert Mul(0.0, 0.0) == 0.0;
    RootOfSquare(sqrt, across, Place(h, 0.0, across).Dot(Place(h, 0.0, across)));
  }

  lemma CpaPast(sqrt: real -> real, p: Vec, v: Vec)
    requires v.Dot(v) > SPEED_SQ_GUARD && -(p.Dot(v) / v.Dot(v)) < 0.0
    ensures CpaTcpa(sqrt, p, v) == Approach(Norm(sqrt, p), -(p.Dot(v) / v.Dot(v)))
  {
    assert p.Plus(v.Times(0.0)) == p;
  }

  lemma OvertakeFast(sqrt: real -> real, h: Vec, along: real, across: real, closing: real)
    requires IsSqrt(sqrt) && IsUnit(h) && Mul(closing, closing) > SPEED_SQ_GUARD
    ensures OvertakeMeasured(CpaTcpa(sqrt, Place(h, along, across), h.Times(-closing)), along, across, closing)
  {
    var p, v, t := Place(h, along, across), h.Times(-closing), along / closing;
    ApproachTime(h, along, across, closing);
    if t >= 0.0 {
      CpaAt(sqrt, p, v, t);
      ComesAbeam(h, along, across, closing);
      AbeamDistance(sqrt, h, across);
    } else {
      CpaPast(sqrt, p, v);
      PresentDistance(sqrt, h, along, across);
    }
  }

  lemma OvertakeSlow(sqrt: real -> real, h: Vec, along: real, across: real, closing: real)
    requires IsSqrt(sqrt) && IsUnit(h) && Mul(closing, closing) <= SPEED_SQ_GUARD
    ensures OvertakeMeasured(CpaTcpa(sqrt, Place(h, along, across), h.Times(-closing)), along, across, closing)
  {
    RelativeSpeed(sqrt, h, closing);
    PresentDistance(sqrt, h, along, across);
  }

  lemma PresentDistance(sqrt: real -> real, h: Vec, along: real, across: real)
    requires IsSqrt(sqrt) && IsUnit(h)
    ensures var d := Norm(sqrt, Place(h, along, across));
            d >= 0.0 && Mul(d, d) == Mul(along, along) + Mul(across, across)
  {
    PlaceSquare(h, along, across);
    NormPositive(sqrt, Place(h, along, across));
  }

  lemma PassTime(along: real, closing: real)
    requires Mul(closing, closing) > 0.0
    ensures closing != 0.0 && -(Mul(along, -closing) / Mul(closing, closing)) == along / closing
  {
    var q, w := Mul(closing, closing), along / closing;
    assert closing != 0.0 by {
      assert Mul(0.0, 0.0) == 0.0;
    }
    DivideBack(along, closing);
    DivideBack(Mul(along, -closing), q);
    var z := Mul(along, -closing) / q;
    assert Mul(along, -closing) == -(w * closing) * closing;
    assert Mul(z + w, q) == 0.0;
    MulSign(z + w, q);
  }

  /** Overtaking on own course from any position, at every pair of speeds: a target that is approached is
      passed at the distance abeam, shifted by the construct CPA; otherwise the present distance is reported,
      with the negative time of the pass, or -1 when the speeds are equal up to the guard. */
  lemma OvertakeRoundTrip(sqrt: real -> real, h: Vec, along: real, across: real, closing: real, cpa: real)
    requires IsSqrt(sqrt) && IsUnit(h)
    ensures var v := h.Times(-closing);
            OvertakeMeasured(CpaTcpa(sqrt, OffsetSpawn(sqrt, Place(h, along, across), v, cpa), v),
                             along, across + Shift(closing, cpa), closing)
  {
    var y := across + Shift(closing, cpa);
    OffsetIsAbeam(sqrt, h, Place(h, along, across), closing, cpa);
    PlaceShifts(h, along, across, Shift(closing, cpa));
    if Mul(closing, closing) > SPEED_SQ_GUARD {
      OvertakeFast(sqrt, h, along, y, closing);
    } else {
      OvertakeSlow(sqrt, h, along, y, closing);
    }
  }

  /** What the overtaking rule generates, with range and CPA by name. */
  lemma OvertakingParts(sqrt: real -> real, cosDeg: real -> real, own: OwnState, approach: Vec,
                        rangeNm: Option<real>, constructCpa: Option<real>, range: real, cpa: real)
    requires cosDeg(own.lat) != 0.0
    requires range == RangeM(DefaultsOf("overtaking").value, rangeNm)
    requires cpa == BuiltCpa(DefaultsOf("overtaking").value, constructCpa)
    ensures var s, vt := SpawnDirection(own, approach, range), own.heading.Times(SpeedMs(4.0));
            GenerateEncounter(sqrt, cosDeg, "overtaking", own, approach, rangeNm, constructCpa) ==
            Ok(SpawnAt(sqrt, cosDeg, own, OffsetSpawn(sqrt, s, vt.Minus(OwnVelocity(own)), cpa), vt))
  {
  }

  lemma OvertakeSpawnMeasured(
      sqrt: real -> real, cosDeg: real -> real, own: OwnState, approach: Vec, range: real, st: real, cpa: real,
      lat0: real, lon0: real)
    requires IsSqrt(sqrt) && cosDeg(own.lat) != 0.0 && cosDeg(lat0) == cosDeg(own.lat) && IsUnit(own.heading)
    ensures var s, vt := SpawnDirection(own, approach, range), own.heading.Times(st);
            var p := OffsetSpawn(sqrt, s, vt.Minus(OwnVelocity(own)), cpa);
            var closing := SpeedMs(own.sogKn) - st;
            OvertakeMeasured(Baseline(sqrt, cosDeg, own, SpawnAt(sqrt, cosDeg, own, p, vt), lat0, lon0),
                             range * approach.n, range * approach.e + Shift(closing, cpa), closing)
  {
    var v0 := SpeedMs(own.sogKn);
    var s, vt := SpawnDirection(own, approach, range), own.heading.Times(st);
    SpawnInFrame(own, approach, range);
    SpeedDifference(own.heading, st, v0);
    BaselineOfSpawn(sqrt, cosDeg, own, OffsetSpawn(sqrt, s, vt.Minus(OwnVelocity(own)), cpa), vt, lat0, lon0);
    OvertakeRoundTrip(sqrt, own.heading, range * approach.n, range * approach.e, v0 - st, cpa);
  }

  /** The overtaking rule from its name on, for every approach angle, with its target speed of 4 knots: the
      approach splits into a part along and a part across own heading. */
  lemma OvertakingMeasuresBack(
      sqrt: real -> real, cosDeg: real -> real, own: OwnState, approach: Vec,
      rangeNm: Option<real>, constructCpa: Option<real>, lat0: real, lon0: real)
    returns (range: real, cpa: real, closing: real, spawn: TargetSpawn)
    requires IsSqrt(sqrt) && cosDeg(own.lat) != 0.0 && cosDeg(lat0) == cosDeg(own.lat)
    requires IsUnit(own.heading)
    ensures range == 1852.0 * (if rangeNm.Some? then rangeNm.value else 1.0)
    ensures cpa == if constructCpa.Some? then constructCpa.value else 200.0
    ensures closing == (own.sogKn - 4.0) * 0.514444
    ensures GenerateEncounter(sqrt, cosDeg, "overtaking", own, approach, rangeNm, constructCpa) == Ok(spawn)
    ensures OvertakeMeasured(Baseline(sqrt, cosDeg, own, spawn, lat0, lon0),
                             range * approach.n, range * approach.e + Shift(closing, cpa), closing)
  {
    var d := DefaultsOf("overtaking").value;
    range, cpa, closing := RangeM(d, rangeNm), BuiltCpa(d, constructCpa), SpeedMs(own.sogKn) - SpeedMs(4.0);
    var s, vt := SpawnDirection(own, approach, range), own.heading.Times(SpeedMs(4.0));
    spawn := SpawnAt(sqrt, cosDeg, own, OffsetSpawn(sqrt, s, vt.Minus(OwnVelocity(own)), cpa), vt);
    OvertakingParts(sqrt, cosDeg, own, approach, rangeNm, constructCpa, range, cpa);
    OvertakeSpawnMeasured(sqrt, cosDeg, own, approach, range, SpeedMs(4.0), cpa, lat0, lon0);
  }

  lemma SpeedDifference(h: Vec, st: real, v0: real)
    ensures h.Times(st).Minus(h.Times(v0)) == h.Times(-(v0 - st))
  {
  }

  lemma SpawnInFrame(own: OwnState, approach: Vec, range: real)
    ensures SpawnDirection(own, approach, range) == Place(own.heading, range * approach.n, range * approach.e)
  {
    var h := own.heading;
    assert range * (h.e * approach.n + h.n * approach.e) == (range * approach.n) * h.e + (range * approach.e) * h.n;
    assert range * (h.n * approach.n - h.e * approach.e) == (range * approach.n) * h.n + (range * approach.e) * -h.e;
  }

  lemma UnitScales(h: Vec, a: real, b: real)
    requires IsUnit(h)
    ensures h.Times(a).Dot(h.Times(b)) == Mul(a, b)
  {
  }
}
