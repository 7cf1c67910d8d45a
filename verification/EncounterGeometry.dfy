/** The encounter generator: a target spawned on a collision course, then shifted sideways by the CPA
    it is meant to construct. */
module EncounterGeometry {
  import opened Options
  import opened Cpa
  import opened Products

  const NM_M := 1852.0
  const KN_MS := 0.514444
  const M_PER_DEG_LAT := 111120.0
  const OFFSET_SPEED_GUARD := 0.000001

  const NO_SOLUTION := "no intercept solution for given geometry"
  const NO_POSITIVE_TIME := "no positive intercept time"

  datatype Mode = Intercept | Overtake

  datatype Defaults = Defaults(
    speedFactor: real, targetSogKn: Option<real>, rangeNm: real, constructCpa: real, mode: Mode)

  function DefaultsOf(rule: string): Option<Defaults> {
    match rule
    case "head_on" => Some(Defaults(1.0, None, 1.5, 0.0, Intercept))
    case "crossing_giveway" => Some(Defaults(1.0, None, 2.0, 300.0, Intercept))
    case "crossing_standon" => Some(Defaults(1.0, None, 2.0, 300.0, Intercept))
    case "overtaking" => Some(Defaults(0.5, Some(4.0), 1.0, 200.0, Overtake))
    case _ => None
  }

  /** `heading` and `course` are the unit vectors (sin, cos) of the nautical angle. */
  datatype OwnState = OwnState(lat: real, lon: real, heading: Vec, sogKn: real)

  datatype TargetSpawn = TargetSpawn(lat: real, lon: real, course: Vec, sogKn: real)

  ghost predicate IsUnit(v: Vec) {
    v.Dot(v) == 1.0
  }

  /** The direction of `heading + angle`, by the addition formulas. */
  function Turned(heading: Vec, angle: Vec): Vec {
    Vec(heading.e * angle.n + heading.n * angle.e, heading.n * angle.n - heading.e * angle.e)
  }

  function Discriminant(a: real, b: real, c: real): real {
    b * b - a * c
  }

  /** 1/T of the earliest intercept for a target of speed `st` at relative position `s`. */
  function SolveIntercept(sqrt: real -> real, s: Vec, vo: Vec, st: real): Result<real> {
    var a := s.Dot(s);
    var b := vo.Dot(s);
    var c := vo.Dot(vo) - st * st;
    var disc := Discriminant(a, b, c);
    if a <= 0.0 || disc < 0.0 then Err(NO_SOLUTION)
    else
      var x := (b + sqrt(disc)) / a;
      if x <= 0.0 then Err(NO_POSITIVE_TIME) else Ok(x)
  }

  /** Shifts the spawn by `cpa`, perpendicular to the relative velocity `v`. */
  function OffsetSpawn(sqrt: real -> real, s: Vec, v: Vec, cpa: real): Vec {
    var mag := Norm(sqrt, v);
    if mag > OFFSET_SPEED_GUARD && cpa != 0.0 then s.Plus(Vec(-v.n / mag, v.e / mag).Times(cpa)) else s
  }

  /** `_offset_to_latlon`; `cosDeg` is the cosine of a latitude in degrees. */
  function OffsetToLatLon(cosDeg: real -> real, lat: real, lon: real, offset: Vec): (real, real)
    requires cosDeg(lat) != 0.0
  {
    (lat + offset.n / M_PER_DEG_LAT, lon + offset.e / (M_PER_DEG_LAT * cosDeg(lat)))
  }

  /** `_course_deg`: the zero vector has course north. */
  function CourseOf(sqrt: real -> real, v: Vec): Vec {
    var mag := Norm(sqrt, v);
    if mag == 0.0 then Vec(0.0, 1.0) else Vec(v.e / mag, v.n / mag)
  }

  function SpeedMs(kn: real): real {
    kn * KN_MS
  }

  function OwnVelocity(own: OwnState): Vec {
    own.heading.Times(SpeedMs(own.sogKn))
  }

  function SpawnDirection(own: OwnState, approach: Vec, rangeM: real): Vec {
    Turned(own.heading, approach).Times(rangeM)
  }

  function TargetSpeed(d: Defaults, own: OwnState): real {
    if d.targetSogKn.Some? then SpeedMs(d.targetSogKn.value) else d.speedFactor * SpeedMs(own.sogKn)
  }

  /** Relative position and target velocity, before the lateral offset. */
  function Construct(sqrt: real -> real, d: Defaults, own: OwnState, approach: Vec, rangeM: real): Result<(Vec, Vec)> {
    var vo := OwnVelocity(own);
    var s := SpawnDirection(own, approach, rangeM);
    match d.mode
    case Overtake => Ok((s, own.heading.Times(TargetSpeed(d, own))))
    case Intercept =>
      match SolveIntercept(sqrt, s, vo, TargetSpeed(d, own))
      case Err(msg) => Err(msg)
      case Ok(x) => Ok((s, vo.Minus(s.Times(x))))
  }

  /** Range and CPA: the caller's value, or the rule's. */
  function RangeM(d: Defaults, rangeNm: Option<real>): real {
    (if rangeNm.Some? then rangeNm.value else d.rangeNm) * NM_M
  }

  function BuiltCpa(d: Defaults, constructCpa: Option<real>): real {
    if constructCpa.Some? then constructCpa.value else d.constructCpa
  }

  /** The body of `generate_encounter`, for the defaults `d` of a rule. */
  function GenerateWith(sqrt: real -> real, cosDeg: real -> real, d: Defaults, own: OwnState, approach: Vec,
                        rangeNm: Option<real>, constructCpa: Option<real>): Result<TargetSpawn>
    requires cosDeg(own.lat) != 0.0
  {
    match Construct(sqrt, d, own, approach, RangeM(d, rangeNm))
    case Err(msg) => Err(msg)
    case Ok(sv) =>
      var p := OffsetSpawn(sqrt, sv.0, sv.1.Minus(OwnVelocity(own)), BuiltCpa(d, constructCpa));
      Ok(SpawnAt(sqrt, cosDeg, own, p, sv.1))
  }

  /** The target as it is written to the scenario. */
  function SpawnAt(sqrt: real -> real, cosDeg: real -> real, own: OwnState, p: Vec, vt: Vec): TargetSpawn
    requires cosDeg(own.lat) != 0.0
  {
    var ll := OffsetToLatLon(cosDeg, own.lat, own.lon, p);
    TargetSpawn(ll.0, ll.1, CourseOf(sqrt, vt), Norm(sqrt, vt) / KN_MS)
  }

  /** `generate_encounter`; `approach` is the unit vector of the approach angle. */
  function GenerateEncounter(sqrt: real -> real, cosDeg: real -> real, rule: string, own: OwnState, approach: Vec,
                             rangeNm: Option<real>, constructCpa: Option<real>): Result<TargetSpawn>
    requires cosDeg(own.lat) != 0.0
  {
    match DefaultsOf(rule)
    case None => Err("unknown rule: " + rule)
    case Some(d) => GenerateWith(sqrt, cosDeg, d, own, approach, rangeNm, constructCpa)
  }

  // ----- The intercept is valid, earliest, and found whenever there is one -----

  /** A target at `s` with velocity `w` is on top of own ship (velocity `vo`, at the origin) after `t`. */
  ghost predicate Meets(s: Vec, w: Vec, vo: Vec, t: real) {
    t > 0.0 && s.Plus(w.Times(t)) == vo.Times(t)
  }

  function Quadratic(a: real, b: real, c: real, x: real): real {
    a * x * x - 2.0 * b * x + c
  }

  lemma CompletedSquare(a: real, b: real, c: real, x: real)
    ensures Mul(a * x - b, a * x - b) == Mul(a, Quadratic(a, b, c, x)) + Discriminant(a, b, c)
  {
  }

  lemma MulCancels(a: real, q: real)
    requires a > 0.0 && Mul(a, q) == 0.0
    ensures q == 0.0
  {
  }

  lemma SquareGrows(u: real, r: real)
    requires r >= 0.0 && u > r
    ensures Mul(u, u) > Mul(r, r)
  {
    MulSign(u + r, u - r);
    assert Mul(u + r, u - r) == Mul(u, u) - Mul(r, r);
  }

  /** The code's x solves the quadratic, and no root is larger. */
  lemma LargestRoot(a: real, b: real, c: real, r: real, x: real)
    requires a > 0.0 && r >= 0.0 && Mul(r, r) == Discriminant(a, b, c) && x == (b + r) / a
    ensures Quadratic(a, b, c, x) == 0.0
    ensures forall y :: Quadratic(a, b, c, y) == 0.0 ==> y <= x
  {
    assert a * x == b + r;
    CompletedSquare(a, b, c, x);
    assert Mul(a * x - b, a * x - b) == Mul(r, r);
    MulCancels(a, Quadratic(a, b, c, x));
    forall y | Quadratic(a, b, c, y) == 0.0 ensures y <= x {
      CompletedSquare(a, b, c, y);
      var u := a * y - b;
      assert Mul(u, u) == Mul(r, r);
      if u > r {
        SquareGrows(u, r);
      }
      assert a * y <= a * x;
      MulSign(y - x, a);
      assert Mul(y - x, a) == a * y - a * x;
    }
  }

  /** With a negative discriminant the quadratic has no root. */
  lemma NoRoot(a: real, b: real, c: real, y: real)
    requires Discriminant(a, b, c) < 0.0
    ensures Quadratic(a, b, c, y) != 0.0
  {
    CompletedSquare(a, b, c, y);
    SquareSign(a * y - b);
    assert Mul(a, 0.0) == 0.0;
  }

  lemma SpeedAfterIntercept(s: Vec, vo: Vec, y: real)
    ensures var w := vo.Minus(s.Times(y));
            w.Dot(w) == Quadratic(s.Dot(s), vo.Dot(s), vo.Dot(vo), y)
  {
  }

  lemma Reciprocal(t: real)
    requires t > 0.0
    ensures 1.0 / t > 0.0 && Mul(1.0 / t, t) == 1.0
  {
  }

  /** Meeting at time t pins the target velocity down to own velocity minus s/t. */
  lemma MeetsIff(s: Vec, w: Vec, vo: Vec, t: real)
    requires t > 0.0
    ensures Meets(s, w, vo, t) <==> w == vo.Minus(s.Times(1.0 / t))
  {
  }

  /** What the solver computed when it got past its first error. */
  lemma SolvedRoot(sqrt: real -> real, s: Vec, vo: Vec, st: real)
    requires IsSqrt(sqrt)
    ensures var a, b, c := s.Dot(s), vo.Dot(s), vo.Dot(vo) - st * st;
            a > 0.0 && Discriminant(a, b, c) >= 0.0 ==>
              var x := (b + sqrt(Discriminant(a, b, c))) / a;
              && Quadratic(a, b, c, x) == 0.0
              && (forall y :: Quadratic(a, b, c, y) == 0.0 ==> y <= x)
              && SolveIntercept(sqrt, s, vo, st) == if x <= 0.0 then Err(NO_POSITIVE_TIME) else Ok(x)
  {
    var a, b, c := s.Dot(s), vo.Dot(s), vo.Dot(vo) - st * st;
    var disc := Discriminant(a, b, c);
    if a > 0.0 && disc >= 0.0 {
      var r := sqrt(disc);
      assert r >= 0.0 && Mul(r, r) == disc;
      LargestRoot(a, b, c, r, (b + r) / a);
    }
  }

  lemma ShiftedQuadratic(a: real, b: real, c: real, d: real, y: real)
    ensures Quadratic(a, b, c - d, y) == Quadratic(a, b, c, y) - d
  {
  }

  /** The solved course has exactly the requested speed and leads to a collision at T = 1/x > 0. */
  lemma InterceptIsValid(sqrt: real -> real, s: Vec, vo: Vec, st: real)
    requires IsSqrt(sqrt) && SolveIntercept(sqrt, s, vo, st).Ok?
    ensures var x := SolveIntercept(sqrt, s, vo, st).value;
            var vt := vo.Minus(s.Times(x));
            x > 0.0 && vt.Dot(vt) == st * st && Meets(s, vt, vo, 1.0 / x)
  {
    var a, b, c := s.Dot(s), vo.Dot(s), vo.Dot(vo) - st * st;
    var x := SolveIntercept(sqrt, s, vo, st).value;
    SolvedRoot(sqrt, s, vo, st);
    ShiftedQuadratic(a, b, vo.Dot(vo), st * st, x);
    SpeedAfterIntercept(s, vo, x);
    Reciprocal(x);
    Reciprocal(1.0 / x);
    DoubleReciprocal(x);
    MeetsIff(s, vo.Minus(s.Times(x)), vo, 1.0 / x);
  }

  lemma DoubleReciprocal(x: real)
    requires x > 0.0
    ensures 1.0 / x > 0.0 && 1.0 / (1.0 / x) == x
  {
  }

  /** Any velocity of the requested speed that meets own ship is a root of the solver's quadratic. */
  lemma MeetingIsARoot(s: Vec, w: Vec, vo: Vec, st: real, t: real)
    requires Meets(s, w, vo, t) && w.Dot(w) == st * st
    ensures Quadratic(s.Dot(s), vo.Dot(s), vo.Dot(vo) - st * st, 1.0 / t) == 0.0
  {
  }

  /** No other velocity of that speed collides earlier. */
  lemma InterceptIsEarliest(sqrt: real -> real, s: Vec, vo: Vec, st: real, w: Vec, t: real)
    requires IsSqrt(sqrt) && SolveIntercept(sqrt, s, vo, st).Ok?
    requires Meets(s, w, vo, t) && w.Dot(w) == st * st
    ensures SolveIntercept(sqrt, s, vo, st).value > 0.0
    ensures t >= 1.0 / SolveIntercept(sqrt, s, vo, st).value
  {
    var a, b, c := s.Dot(s), vo.Dot(s), vo.Dot(vo) - st * st;
    var x := SolveIntercept(sqrt, s, vo, st).value;
    SolvedRoot(sqrt, s, vo, st);
    MeetingIsARoot(s, w, vo, st, t);
    ReciprocalOrder(t, x);
  }

  lemma ReciprocalOrder(t: real, x: real)
    requires t > 0.0 && x > 0.0 && 1.0 / t <= x
    ensures t >= 1.0 / x
  {
  }

  ghost predicate CollisionPossible(s: Vec, vo: Vec, st: real) {
    exists w, t :: Meets(s, w, vo, t) && w.Dot(w) == st * st
  }

  /** The solver succeeds exactly when the spawn is not on top of own ship and some velocity of the
      requested speed leads to a collision: both its errors are honest. */
  lemma InterceptFoundIff(sqrt: real -> real, s: Vec, vo: Vec, st: real)
    requires IsSqrt(sqrt)
    ensures SolveIntercept(sqrt, s, vo, st).Ok? <==> s.Dot(s) > 0.0 && CollisionPossible(s, vo, st)
  {
    var a, b, c := s.Dot(s), vo.Dot(s), vo.Dot(vo) - st * st;
    if SolveIntercept(sqrt, s, vo, st).Ok? {
      InterceptIsValid(sqrt, s, vo, st);
    } else if a > 0.0 && CollisionPossible(s, vo, st) {
      var w, t :| Meets(s, w, vo, t) && w.Dot(w) == st * st;
      MeetingIsARoot(s, w, vo, st, t);
      Reciprocal(t);
      if Discriminant(a, b, c) < 0.0 {
        NoRoot(a, b, c, 1.0 / t);
      } else {
        SolvedRoot(sqrt, s, vo, st);
      }
    }
  }
}
