/** Path length, integrated cross-track error and route crossings of the own-ship track. */
module Seamanship {
  import opened Options
  import opened RealMath
  import opened Cpa
  import opened Products
  import opened StableSort

  /** Time, position and cross-track error of one own-ship record. */
  datatype Sample = Sample(t: real, pos: Vec, xte: real)

  function SampleTime(s: Sample): real {
    s.t
  }

  const DEADBAND_M := 25.0

  function PathLength(sqrt: real -> real, s: seq<Sample>): real {
    if |s| < 2 then 0.0 else Norm(sqrt, s[1].pos.Minus(s[0].pos)) + PathLength(sqrt, s[1..])
  }

  function Trapezoid(prev: Sample, cur: Sample): real {
    ((Abs(prev.xte) + Abs(cur.xte)) * 0.5) * Max(0.0, cur.t - prev.t)
  }

  /** Trapezoidal integral of |xte|. */
  function IntegratedXte(s: seq<Sample>): real {
    if |s| < 2 then 0.0 else Trapezoid(s[0], s[1]) + IntegratedXte(s[1..])
  }

  /** +1 or -1 beyond the dead band, 0 inside it. */
  function Side(s: Sample): int {
    if s.xte > DEADBAND_M then 1 else if s.xte < -DEADBAND_M then -1 else 0
  }

  function OffRoute(s: Sample): bool {
    Side(s) != 0
  }

  /** The samples outside the dead band. */
  function Excursions(s: seq<Sample>): seq<Sample> {
    Filter(OffRoute, s)
  }

  /** Changes of side between neighbours. */
  function Alternations(s: seq<Sample>): nat {
    if |s| < 2 then 0 else (if Side(s[0]) != Side(s[1]) then 1 else 0) + Alternations(s[1..])
  }

  datatype Metrics = Metrics(integratedXte: real, crossings: nat, pathLength: real, pathRatio: real)

  function Denominator(sqrt: real -> real, s: seq<Sample>, routeDistance: Option<real>): real
    requires s != []
  {
    Max(if routeDistance.Some? then routeDistance.value else Norm(sqrt, s[|s| - 1].pos.Minus(s[0].pos)), 1.0)
  }

  /** The accumulation loop of `compute_seamanship_metrics`. */
  method Accumulate(sqrt: real -> real, s: seq<Sample>) returns (integrated: real, length: real)
    requires s != []
    ensures integrated == IntegratedXte(s) && length == PathLength(sqrt, s)
  {
    integrated, length := 0.0, 0.0;
    for i := 1 to |s|
      invariant integrated + IntegratedXte(s[i - 1..]) == IntegratedXte(s)
      invariant length + PathLength(sqrt, s[i - 1..]) == PathLength(sqrt, s)
    {
      assert s[i - 1..][1..] == s[i..];
      integrated := integrated + Trapezoid(s[i - 1], s[i]);
      length := length + Norm(sqrt, s[i].pos.Minus(s[i - 1].pos));
    }
  }

  /** `compute_seamanship_metrics` on records already selected. */
  method ComputeMetrics(sqrt: real -> real, records: seq<Sample>, routeDistance: Option<real>) returns (m: Metrics)
    ensures records == [] ==> m == Metrics(0.0, 0, 0.0, 1.0)
    ensures records != [] ==>
              var s := Sort(SampleTime, records);
              m == Metrics(IntegratedXte(s), Alternations(Excursions(s)), PathLength(sqrt, s),
                           PathLength(sqrt, s) / Denominator(sqrt, s, routeDistance))
  {
    var s := Sort(SampleTime, records);
    if s == [] {
      return Metrics(0.0, 0, 0.0, 1.0);
    }
    var integrated, length := Accumulate(sqrt, s);
    var crossings := CountCrossings(s);
    m := Metrics(integrated, crossings, length, length / Denominator(sqrt, s, routeDistance));
  }

  /** The excursions still to be compared, led by the last one seen. */
  ghost function Chain(prev: Option<Sample>, rest: seq<Sample>): seq<Sample> {
    if prev.None? then rest else [prev.value] + rest
  }

  lemma ChainStep(prev: Option<Sample>, s: Sample, rest: seq<Sample>)
    ensures Alternations(Chain(prev, [s] + rest))
         == (if prev.Some? && Side(prev.value) != Side(s) then 1 else 0) + Alternations(Chain(Some(s), rest))
  {
  }

  lemma ExcursionsFrom(s: seq<Sample>, i: nat)
    requires i < |s|
    ensures Excursions(s[i..]) == if OffRoute(s[i]) then [s[i]] + Excursions(s[i + 1..]) else Excursions(s[i + 1..])
  {
    assert s[i..][1..] == s[i + 1..];
  }

  method CountCrossings(s: seq<Sample>) returns (crossings: nat)
    ensures crossings == Alternations(Excursions(s))
  {
    crossings := 0;
    var prevSign := 0;
    ghost var prev: Option<Sample> := None;
    assert s[0..] == s;
    for i := 0 to |s|
      invariant prev.None? <==> prevSign == 0
      invariant prev.Some? ==> Side(prev.value) == prevSign
      invariant crossings + Alternations(Chain(prev, Excursions(s[i..]))) == Alternations(Excursions(s))
    {
      ExcursionsFrom(s, i);
      var sign;
      if s[i].xte > DEADBAND_M {
        sign := 1;
      } else if s[i].xte < -DEADBAND_M {
        sign := -1;
      } else {
        continue;
      }
      ChainStep(prev, s[i], Excursions(s[i + 1..]));
      if prevSign != 0 && sign != prevSign {
        crossings := crossings + 1;
      }
      prevSign := sign;
      prev := Some(s[i]);
    }
  }

  // ----- Path length -----

  /** Lagrange's identity in two dimensions. */
  lemma Lagrange(a: Vec, b: Vec)
    ensures Mul(a.Dot(a), b.Dot(b)) - Mul(a.Dot(b), a.Dot(b))
         == Mul(a.e * b.n - a.n * b.e, a.e * b.n - a.n * b.e)
  {
  }

  lemma CauchySchwarz(sqrt: real -> real, a: Vec, b: Vec)
    requires IsSqrt(sqrt)
    ensures a.Dot(b) <= Mul(Norm(sqrt, a), Norm(sqrt, b))
  {
    SquareNonneg(a);
    SquareNonneg(b);
    var m, n := Norm(sqrt, a), Norm(sqrt, b);
    MulNonneg(m, n);
    Lagrange(a, b);
    SquareSign(a.e * b.n - a.n * b.e);
    ProductOfSquares(m, n, a.Dot(a), b.Dot(b));
    SmallerSquare(a.Dot(b), Mul(m, n));
  }

  lemma ProductOfSquares(m: real, n: real, p: real, q: real)
    requires m * m == p && n * n == q
    ensures Mul(Mul(m, n), Mul(m, n)) == Mul(p, q)
  {
  }

  lemma SmallerSquare(x: real, y: real)
    requires y >= 0.0 && Mul(x, x) <= Mul(y, y)
    ensures x <= y
  {
    if x > y {
      MulSign(x + y, x - y);
      Squares(x, y);
    }
  }

  lemma Squares(x: real, y: real)
    ensures Mul(x + y, x - y) == Mul(x, x) - Mul(y, y)
  {
  }

  lemma TriangleInequality(sqrt: real -> real, a: Vec, b: Vec)
    requires IsSqrt(sqrt)
    ensures Norm(sqrt, a.Plus(b)) <= Norm(sqrt, a) + Norm(sqrt, b)
  {
    SquareNonneg(a);
    SquareNonneg(b);
    SquareNonneg(a.Plus(b));
    CauchySchwarz(sqrt, a, b);
    var c, m, n := Norm(sqrt, a.Plus(b)), Norm(sqrt, a), Norm(sqrt, b);
    assert Mul(c, c) == a.Plus(b).Dot(a.Plus(b));
    assert a.Plus(b).Dot(a.Plus(b)) == a.Dot(a) + 2.0 * a.Dot(b) + b.Dot(b);
    assert Mul(m + n, m + n) == m * m + 2.0 * Mul(m, n) + n * n;
    SmallerSquare(c, m + n);
  }

  /** The path is never shorter than the net displacement. */
  lemma {:induction false} PathAtLeastNet(sqrt: real -> real, s: seq<Sample>)
    requires IsSqrt(sqrt) && s != []
    ensures PathLength(sqrt, s) >= Norm(sqrt, s[|s| - 1].pos.Minus(s[0].pos))
    decreases |s|
  {
    if |s| == 1 {
      assert s[0].pos.Minus(s[0].pos) == Vec(0.0, 0.0);
      var z := Norm(sqrt, Vec(0.0, 0.0));
      assert Vec(0.0, 0.0).Dot(Vec(0.0, 0.0)) == 0.0;
      assert z >= 0.0 && z * z == 0.0;
      MulSelfZero(z);
    } else {
      PathAtLeastNet(sqrt, s[1..]);
      var first, rest := s[1].pos.Minus(s[0].pos), s[|s| - 1].pos.Minus(s[1].pos);
      assert first.Plus(rest) == s[|s| - 1].pos.Minus(s[0].pos);
      TriangleInequality(sqrt, first, rest);
    }
  }

  /** The track runs along the unit vector `dir` from `origin`, and `along` are the distances covered. */
  ghost predicate RunsStraight(s: seq<Sample>, origin: Vec, dir: Vec, along: seq<real>) {
    && |along| == |s| && dir.Dot(dir) == 1.0
    && (forall k :: 0 <= k < |s| ==> s[k].pos == origin.Plus(dir.Times(along[k])))
    && forall k :: 0 <= k < |s| - 1 ==> along[k] <= along[k + 1]
  }

  lemma StepLength(sqrt: real -> real, origin: Vec, dir: Vec, a: real, b: real)
    requires IsSqrt(sqrt) && dir.Dot(dir) == 1.0 && a <= b
    ensures Norm(sqrt, origin.Plus(dir.Times(b)).Minus(origin.Plus(dir.Times(a)))) == b - a
  {
    var v, d := origin.Plus(dir.Times(b)).Minus(origin.Plus(dir.Times(a))), b - a;
    assert v == dir.Times(d);
    assert v.Dot(v) == Mul(d, d) * dir.Dot(dir);
    SquareNonneg(v);
    var m := Norm(sqrt, v);
    assert Mul(m, m) == Mul(d, d);
    SmallerSquare(m, d);
    SmallerSquare(d, m);
  }

  /** On a straight track run in one direction the path is the distance covered, which is the net displacement. */
  lemma {:induction false} StraightPath(sqrt: real -> real, s: seq<Sample>, origin: Vec, dir: Vec, along: seq<real>)
    requires IsSqrt(sqrt) && s != [] && RunsStraight(s, origin, dir, along)
    ensures along[0] <= along[|s| - 1]
    ensures PathLength(sqrt, s) == along[|s| - 1] - along[0] == Norm(sqrt, s[|s| - 1].pos.Minus(s[0].pos))
    decreases |s|
  {
    if |s| >= 2 {
      assert RunsStraight(s[1..], origin, dir, along[1..]) by {
        forall k | 0 <= k < |s[1..]| - 1 ensures along[1..][k] <= along[1..][k + 1] {
          assert along[k + 1] <= along[k + 2];
        }
      }
      StraightPath(sqrt, s[1..], origin, dir, along[1..]);
      StepLength(sqrt, origin, dir, along[0], along[1]);
    }
    StepLength(sqrt, origin, dir, along[0], along[|s| - 1]);
  }

  lemma MulSelfZero(z: real)
    requires z * z == 0.0
    ensures z == 0.0
  {
    SquareSign(z);
  }

  /** Without a route distance the reported ratio is below one exactly for tracks shorter than a metre. */
  lemma RatioBelowOneIff(sqrt: real -> real, s: seq<Sample>)
    requires IsSqrt(sqrt) && s != []
    ensures PathLength(sqrt, s) / Denominator(sqrt, s, None) < 1.0 <==> PathLength(sqrt, s) < 1.0
  {
    PathAtLeastNet(sqrt, s);
    QuotientBelowOne(PathLength(sqrt, s), Denominator(sqrt, s, None));
  }

  lemma QuotientBelowOne(p: real, d: real)
    requires d > 0.0
    ensures p / d < 1.0 <==> p < d
  {
  }

  // ----- Cross-track error -----

  lemma TrapezoidWithin(prev: Sample, cur: Sample, worst: real)
    requires Abs(prev.xte) <= worst && Abs(cur.xte) <= worst && prev.t <= cur.t
    ensures 0.0 <= Trapezoid(prev, cur) <= Mul(worst, cur.t - prev.t)
  {
    var mean, dt := (Abs(prev.xte) + Abs(cur.xte)) * 0.5, cur.t - prev.t;
    MulNonneg(mean, dt);
    MulNonneg(worst - mean, dt);
    SplitSpan(worst, mean, dt, 0.0);
    assert Trapezoid(prev, cur) == Mul(mean, dt);
  }

  /** The integral is at most the largest error times the span. */
  lemma {:induction false} IntegralWithinWorst(s: seq<Sample>, worst: real)
    requires s != [] && Sorted(SampleTime, s)
    requires forall k :: 0 <= k < |s| ==> Abs(s[k].xte) <= worst
    ensures 0.0 <= IntegratedXte(s) <= Mul(worst, s[|s| - 1].t - s[0].t)
    decreases |s|
  {
    if |s| == 1 {
      assert Mul(worst, 0.0) == 0.0;
    } else {
      IntegralWithinWorst(s[1..], worst);
      assert SampleTime(s[0]) <= SampleTime(s[1]);
      TrapezoidWithin(s[0], s[1], worst);
      SplitSpan(worst, 0.0, s[1].t - s[0].t, s[|s| - 1].t - s[1].t);
    }
  }

  lemma SplitSpan(worst: real, mean: real, dt: real, rest: real)
    ensures Mul(worst, dt + rest) == Mul(worst, dt) + Mul(worst, rest)
    ensures Mul(worst - mean, dt) == Mul(worst, dt) - Mul(mean, dt)
  {
  }

  /** The cross-track error is `a + b t` and stays on one side of the route. */
  ghost predicate IsAffine(s: seq<Sample>, a: real, b: real) {
    || (forall k :: 0 <= k < |s| ==> s[k].xte == a + Mul(b, s[k].t) && s[k].xte >= 0.0)
    || (forall k :: 0 <= k < |s| ==> s[k].xte == -(a + Mul(b, s[k].t)) && s[k].xte <= 0.0)
  }

  /** Antiderivative of `a + b t`. */
  function Antiderivative(a: real, b: real, t: real): real {
    Mul(a, t) + Mul(b, Mul(t, t)) / 2.0
  }

  lemma TrapezoidExact(p: Sample, q: Sample, a: real, b: real)
    requires p.t <= q.t && Abs(p.xte) == a + Mul(b, p.t) && Abs(q.xte) == a + Mul(b, q.t)
    ensures Trapezoid(p, q) == Antiderivative(a, b, q.t) - Antiderivative(a, b, p.t)
  {
    assert Trapezoid(p, q) == ((a + b * p.t + (a + b * q.t)) * 0.5) * (q.t - p.t);
  }

  /** An error that changes linearly, on one side of the route, is integrated exactly. */
  lemma {:induction false} AffineErrorIsExact(s: seq<Sample>, a: real, b: real)
    requires s != [] && Sorted(SampleTime, s) && IsAffine(s, a, b)
    ensures IntegratedXte(s) == Antiderivative(a, b, s[|s| - 1].t) - Antiderivative(a, b, s[0].t)
    decreases |s|
  {
    if |s| >= 2 {
      assert SampleTime(s[0]) <= SampleTime(s[1]);
      TrapezoidExact(s[0], s[1], a, b);
      assert forall k :: 0 <= k < |s[1..]| ==> s[1..][k] == s[k + 1];
      AffineErrorIsExact(s[1..], a, b);
    }
  }

  // ----- Crossings -----

  predicate ChangesSide(s: seq<Sample>, k: int) {
    0 < k < |s| && Side(s[k - 1]) != Side(s[k])
  }

  function SideChanges(s: seq<Sample>): set<int> {
    set k: int | 0 < k < |s| && ChangesSide(s, k)
  }

  lemma {:induction false} AlternationsSnoc(s: seq<Sample>, x: Sample)
    requires s != []
    ensures Alternations(s + [x]) == Alternations(s) + if Side(s[|s| - 1]) != Side(x) then 1 else 0
    decreases |s|
  {
    if |s| >= 2 {
      assert (s + [x])[1..] == s[1..] + [x];
      AlternationsSnoc(s[1..], x);
    }
  }

  /** The alternations are the places at which the side changes. */
  lemma {:induction false} AlternationsCount(s: seq<Sample>)
    ensures Alternations(s) == |SideChanges(s)|
    decreases |s|
  {
    if |s| < 2 {
      assert SideChanges(s) == {};
    } else {
      var n := |s| - 1;
      var front := s[..n];
      AlternationsCount(front);
      AlternationsSnoc(front, s[n]);
      assert s == front + [s[n]];
      if Side(s[n - 1]) != Side(s[n]) {
        assert SideChanges(s) == SideChanges(front) + {n};
      } else {
        assert SideChanges(s) == SideChanges(front);
      }
    }
  }

  /** An odd number of crossings is an end on the other side of the route. */
  lemma {:induction false} CrossingParity(e: seq<Sample>)
    requires e != [] && forall s :: s in e ==> OffRoute(s)
    ensures Alternations(e) <= |e| - 1
    ensures Alternations(e) % 2 == 1 <==> Side(e[0]) != Side(e[|e| - 1])
    decreases |e|
  {
    if |e| >= 2 {
      CrossingParity(e[1..]);
      assert OffRoute(e[0]) && OffRoute(e[1]) && OffRoute(e[|e| - 1]);
    }
  }
}
