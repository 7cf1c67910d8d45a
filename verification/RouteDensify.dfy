/** Densification of a nominal route and resampling of its speeds. */
module RouteDensify {
  import opened Products

  datatype Point = Point(lat: real, lon: real)

  /** `_haversine_nm`, `_bearing_between` and `_project_point`: arbitrary functions. */
  datatype Geo = Geo(
    distance: (Point, Point) -> real,
    bearing: (Point, Point) -> real,
    project: (Point, real, real) -> Point)

  /** `math.ceil` */
  function Ceil(x: real): int {
    -((-x).Floor)
  }

  function MaxInt(a: int, b: int): int {
    if a >= b then a else b
  }

  /** Sub-legs of the leg from `p` to `q`. */
  function Steps(geo: Geo, p: Point, q: Point, spacing: real): (n: nat)
    requires spacing > 0.0
    ensures n >= 1
  {
    MaxInt(1, Ceil(geo.distance(p, q) / spacing))
  }

  /** Distance along the leg of sub-point `k` of `n`. */
  function StepTo(leg: real, n: nat, k: nat): real
    requires n > 0
  {
    leg / (n as real) * (k as real)
  }

  /** Sub-point `k` of the leg, counted from 1; the last one is the leg's true finish. */
  function SubPoint(geo: Geo, p: Point, q: Point, n: nat, k: nat): Point
    requires n > 0
  {
    if k == n then q else geo.project(p, geo.bearing(p, q), StepTo(geo.distance(p, q), n, k))
  }

  /** The points a leg contributes after its start. */
  function LegPoints(geo: Geo, p: Point, q: Point, spacing: real): (r: seq<Point>)
    requires spacing > 0.0
    ensures |r| >= 1 && r[|r| - 1] == q
  {
    var n := Steps(geo, p, q, spacing);
    if geo.distance(p, q) <= spacing then [q]
    else seq(n, i requires 0 <= i < n => SubPoint(geo, p, q, n, i + 1))
  }

  type LegFunction = (Point, Point) -> seq<Point>

  function LegsOf(geo: Geo, spacing: real): LegFunction
    requires spacing > 0.0
  {
    (p, q) => LegPoints(geo, p, q, spacing)
  }

  /** The points of all legs, one leg after the other. */
  function Chain(leg: LegFunction, w: seq<Point>): seq<Point> {
    if |w| < 2 then [] else leg(w[0], w[1]) + Chain(leg, w[1..])
  }

  function Densified(geo: Geo, w: seq<Point>, spacing: real): seq<Point> {
    if |w| < 2 || spacing <= 0.0 then w else [w[0]] + Chain(LegsOf(geo, spacing), w)
  }

  lemma {:induction false} ChainSnoc(leg: LegFunction, w: seq<Point>, q: Point)
    requires w != []
    ensures Chain(leg, w + [q]) == Chain(leg, w) + leg(w[|w| - 1], q)
    decreases |w|
  {
    if |w| == 1 {
      assert (w + [q])[1..] == [q];
      assert Chain(leg, [q]) == [];
    } else {
      assert (w + [q])[1..] == w[1..] + [q];
      ChainSnoc(leg, w[1..], q);
    }
  }

  /** The inner loop of `_densify_waypoints`. */
  method DensifyLeg(geo: Geo, p: Point, q: Point, spacing: real) returns (points: seq<Point>)
    requires spacing > 0.0
    ensures points == LegPoints(geo, p, q, spacing)
  {
    var leg := geo.distance(p, q);
    if leg <= spacing {
      return [q];
    }
    var bearing := geo.bearing(p, q);
    var n := MaxInt(1, Ceil(leg / spacing));
    points := [];
    for k := 1 to n + 1
      invariant |points| == k - 1
      invariant forall i :: 0 <= i < k - 1 ==> points[i] == SubPoint(geo, p, q, n, i + 1)
    {
      if k == n {
        points := points + [q];
      } else {
        points := points + [geo.project(p, bearing, StepTo(leg, n, k))];
      }
    }
  }

  /** `_densify_waypoints` */
  method DensifyWaypoints(geo: Geo, w: seq<Point>, spacing: real) returns (densified: seq<Point>)
    ensures densified == Densified(geo, w, spacing)
  {
    if |w| < 2 || spacing <= 0.0 {
      return w;
    }
    densified := [w[0]];
    var i := 0;
    while i < |w| - 1
      invariant 0 <= i <= |w| - 1
      invariant densified == [w[0]] + Chain(LegsOf(geo, spacing), w[..i + 1])
    {
      var points := DensifyLeg(geo, w[i], w[i + 1], spacing);
      assert w[..i + 2] == w[..i + 1] + [w[i + 1]];
      ChainSnoc(LegsOf(geo, spacing), w[..i + 1], w[i + 1]);
      ghost var before := Chain(LegsOf(geo, spacing), w[..i + 1]);
      assert [w[0]] + (before + points) == [w[0]] + before + points;
      densified := densified + points;
      i := i + 1;
    }
    assert w[..i + 1] == w;
  }

  // ----- Length and position of the nominal waypoints -----

  lemma CeilMeaning(x: real)
    ensures (Ceil(x) - 1) as real < x <= Ceil(x) as real
  {
  }

  lemma LegLength(geo: Geo, p: Point, q: Point, spacing: real)
    requires spacing > 0.0
    ensures |LegPoints(geo, p, q, spacing)| == Steps(geo, p, q, spacing)
    ensures Steps(geo, p, q, spacing) == 1 <==> geo.distance(p, q) <= spacing
  {
  }

  /** Sub-leg counts of the route, leg by leg. */
  function LegSteps(geo: Geo, w: seq<Point>, spacing: real): (r: seq<nat>)
    requires spacing > 0.0
    ensures |r| == if |w| == 0 then 0 else |w| - 1
    ensures forall k :: 0 <= k < |r| ==> r[k] == Steps(geo, w[k], w[k + 1], spacing)
  {
    if |w| < 2 then [] else [Steps(geo, w[0], w[1], spacing)] + LegSteps(geo, w[1..], spacing)
  }

  /** Index of nominal waypoint `k` in the densified route: the sub-legs in front of it. */
  function Offset(steps: seq<nat>, k: nat): (n: nat)
    requires k <= |steps|
    ensures k == 0 ==> n == 0
  {
    if k == 0 then 0 else Offset(steps, k - 1) + steps[k - 1]
  }

  lemma {:induction false} OffsetTail(steps: seq<nat>, k: nat)
    requires 0 < k <= |steps|
    ensures Offset(steps, k) == steps[0] + Offset(steps[1..], k - 1)
  {
    if k > 1 {
      OffsetTail(steps, k - 1);
    }
  }

  /** Every leg ends at its finish. */
  ghost predicate EndsLegs(leg: LegFunction) {
    forall p, q :: leg(p, q) != [] && leg(p, q)[|leg(p, q)| - 1] == q
  }

  ghost predicate Sizes(leg: LegFunction, w: seq<Point>, sizes: seq<nat>) {
    |sizes| == |w| - 1 && forall k :: 0 <= k < |sizes| ==> sizes[k] == |leg(w[k], w[k + 1])|
  }

  lemma {:induction false} ChainSize(leg: LegFunction, w: seq<Point>, sizes: seq<nat>)
    requires w != [] && Sizes(leg, w, sizes)
    ensures |Chain(leg, w)| == Offset(sizes, |w| - 1)
    decreases |w|
  {
    if |w| >= 2 {
      OffsetTail(sizes, |w| - 1);
      TailSizes(leg, w, sizes);
      ChainSize(leg, w[1..], sizes[1..]);
    }
  }

  lemma TailSizes(leg: LegFunction, w: seq<Point>, sizes: seq<nat>)
    requires |w| >= 2 && Sizes(leg, w, sizes)
    ensures Sizes(leg, w[1..], sizes[1..]) && sizes[0] == |leg(w[0], w[1])|
  {
  }

  lemma {:induction false} ChainHoldsNominal(leg: LegFunction, w: seq<Point>, sizes: seq<nat>, k: nat)
    requires EndsLegs(leg) && Sizes(leg, w, sizes) && 0 < k < |w|
    ensures 0 < Offset(sizes, k) <= |Chain(leg, w)|
    ensures Chain(leg, w)[Offset(sizes, k) - 1] == w[k]
    decreases |w|
  {
    OffsetTail(sizes, k);
    TailSizes(leg, w, sizes);
    var first, rest := leg(w[0], w[1]), Chain(leg, w[1..]);
    assert first != [] && first[|first| - 1] == w[1];
    if k == 1 {
      assert (first + rest)[|first| - 1] == w[1];
    } else {
      ChainHoldsNominal(leg, w[1..], sizes[1..], k - 1);
      var n := Offset(sizes[1..], k - 1) - 1;
      assert (first + rest)[|first| + n] == rest[n];
    }
  }

  lemma StepsAreSizes(geo: Geo, w: seq<Point>, spacing: real)
    requires spacing > 0.0 && w != []
    ensures EndsLegs(LegsOf(geo, spacing))
    ensures Sizes(LegsOf(geo, spacing), w, LegSteps(geo, w, spacing))
  {
    var leg, s := LegsOf(geo, spacing), LegSteps(geo, w, spacing);
    forall k | 0 <= k < |s| ensures s[k] == |leg(w[k], w[k + 1])| {
      LegLength(geo, w[k], w[k + 1], spacing);
    }
  }

  /** Every nominal waypoint is kept verbatim at its computed index, and the route has one point more
      than there are sub-legs. */
  lemma NominalWaypointsKept(geo: Geo, w: seq<Point>, spacing: real, k: nat)
    requires spacing > 0.0 && |w| >= 2 && k < |w|
    ensures var s := LegSteps(geo, w, spacing);
            && |Densified(geo, w, spacing)| == 1 + Offset(s, |w| - 1)
            && Offset(s, k) < |Densified(geo, w, spacing)|
            && Densified(geo, w, spacing)[Offset(s, k)] == w[k]
  {
    var s, leg := LegSteps(geo, w, spacing), LegsOf(geo, spacing);
    StepsAreSizes(geo, w, spacing);
    ChainSize(leg, w, s);
    var a, n := Chain(leg, w), Offset(s, k);
    if k > 0 {
      ChainHoldsNominal(leg, w, s, k);
      assert ([w[0]] + a)[n] == a[n - 1];
    }
  }

  /** The indices increase, so the order of the waypoints is kept. */
  lemma {:induction false} OffsetsIncrease(steps: seq<nat>, i: nat, j: nat)
    requires i < j <= |steps| && forall k :: 0 <= k < |steps| ==> steps[k] >= 1
    ensures Offset(steps, i) < Offset(steps, j)
  {
    if i < j - 1 {
      OffsetsIncrease(steps, i, j - 1);
    }
  }

  // ----- Spacing, under exact projection -----

  /** On the leg from `p` to `q` the projection is exact: it starts at `p`, ends at `q`, and distances
      along it add up. */
  ghost predicate ExactLeg(geo: Geo, p: Point, q: Point) {
    var b, leg := geo.bearing(p, q), geo.distance(p, q);
    && geo.project(p, b, 0.0) == p
    && geo.project(p, b, leg) == q
    && forall d, e :: 0.0 <= d <= e <= leg ==> geo.distance(geo.project(p, b, d), geo.project(p, b, e)) == e - d
  }

  ghost predicate ExactRoute(geo: Geo, w: seq<Point>) {
    forall k :: 0 <= k < |w| - 1 ==> ExactLeg(geo, w[k], w[k + 1])
  }

  /** No two neighbours are further apart than `spacing`. */
  ghost predicate SpacedWithin(geo: Geo, w: seq<Point>, spacing: real) {
    forall k :: 0 <= k < |w| - 1 ==> geo.distance(w[k], w[k + 1]) <= spacing
  }

  /** Sub-points lie in order on the leg, one step of at most `spacing` apart. */
  lemma StepsAlongLeg(leg: real, n: nat, k: nat, spacing: real)
    requires spacing > 0.0 && leg > spacing && n == MaxInt(1, Ceil(leg / spacing)) && k < n
    ensures 0.0 <= StepTo(leg, n, k) <= StepTo(leg, n, k + 1) <= leg
    ensures StepTo(leg, n, k + 1) - StepTo(leg, n, k) <= spacing
    ensures StepTo(leg, n, 0) == 0.0 && StepTo(leg, n, n) == leg
  {
    CeilMeaning(leg / spacing);
    var m, x := n as real, leg / spacing;
    var step := leg / m;
    assert step * m == leg && x * spacing == leg;
    MulNonneg(m - x, spacing);
    assert Mul(m - x, spacing) == m * spacing - leg;
    StepBounds(step, m, leg, spacing);
    StepMultiples(step, k as real, m);
    assert (k + 1) as real == k as real + 1.0;
    assert StepTo(leg, n, k) == step * (k as real);
    assert StepTo(leg, n, k + 1) == step * (k as real + 1.0) <= step * m;
    assert StepTo(leg, n, 0) == step * 0.0;
  }

  lemma StepBounds(step: real, m: real, leg: real, spacing: real)
    requires m >= 1.0 && leg > 0.0 && step * m == leg && leg <= m * spacing
    ensures 0.0 < step <= spacing
  {
  }

  lemma StepMultiples(step: real, k: real, m: real)
    requires step > 0.0 && 0.0 <= k <= m - 1.0
    ensures step * (k + 1.0) == step * k + step
    ensures 0.0 <= step * k && step * (k + 1.0) <= step * m
  {
  }

  function Reach(n: nat, spacing: real): real {
    n as real * spacing
  }

  lemma ReachOrder(n: nat, x: real, leg: real, spacing: real)
    requires spacing > 0.0 && x * spacing == leg
    ensures leg <= Reach(n, spacing) <==> x <= n as real
  {
    var d := n as real - x;
    assert Reach(n, spacing) - leg == Mul(d, spacing);
    if d < 0.0 {
      MulSign(-d, spacing);
      assert Mul(-d, spacing) == -Mul(d, spacing);
    } else {
      MulNonneg(d, spacing);
    }
  }

  /** The number of sub-legs is the least positive one whose steps of `spacing` reach the finish. */
  lemma StepsIsLeast(geo: Geo, p: Point, q: Point, spacing: real)
    requires spacing > 0.0
    ensures var n, leg := Steps(geo, p, q, spacing), geo.distance(p, q);
            && n >= 1 && leg <= Reach(n, spacing)
            && forall m: nat :: 1 <= m < n ==> Reach(m, spacing) < leg
  {
    var n, leg := Steps(geo, p, q, spacing), geo.distance(p, q);
    var x := leg / spacing;
    assert x * spacing == leg;
    CeilMeaning(x);
    ReachOrder(n, x, leg, spacing);
    forall m: nat | 1 <= m < n ensures Reach(m, spacing) < leg {
      ReachOrder(m, x, leg, spacing);
    }
  }

  lemma StepsDiffer(leg: real, n: nat, k: nat)
    requires n > 0
    ensures StepTo(leg, n, k + 1) - StepTo(leg, n, k) == leg / n as real
  {
    assert (k + 1) as real == k as real + 1.0;
  }

  /** On an exactly projected leg the sub-legs are equally long. */
  lemma SubLegsAreEqual(geo: Geo, p: Point, q: Point, spacing: real, k: nat)
    requires spacing > 0.0 && ExactLeg(geo, p, q) && k < Steps(geo, p, q, spacing)
    ensures var r, n := [p] + LegPoints(geo, p, q, spacing), Steps(geo, p, q, spacing);
            k + 1 < |r| && geo.distance(r[k], r[k + 1]) == geo.distance(p, q) / n as real
  {
    var leg, b, n := geo.distance(p, q), geo.bearing(p, q), Steps(geo, p, q, spacing);
    var r := [p] + LegPoints(geo, p, q, spacing);
    LegLength(geo, p, q, spacing);
    if leg > spacing {
      StepsAlongLeg(leg, n, k, spacing);
      StepsDiffer(leg, n, k);
      assert r[k] == geo.project(p, b, StepTo(leg, n, k));
      assert r[k + 1] == geo.project(p, b, StepTo(leg, n, k + 1));
    }
  }

  /** Within a densified leg neighbours are one step apart. */
  lemma LegIsSpaced(geo: Geo, p: Point, q: Point, spacing: real)
    requires spacing > 0.0 && ExactLeg(geo, p, q)
    ensures SpacedWithin(geo, [p] + LegPoints(geo, p, q, spacing), spacing)
  {
    var leg, b := geo.distance(p, q), geo.bearing(p, q);
    var r := [p] + LegPoints(geo, p, q, spacing);
    if leg > spacing {
      var n := Steps(geo, p, q, spacing);
      forall k | 0 <= k < |r| - 1 ensures geo.distance(r[k], r[k + 1]) <= spacing {
        StepsAlongLeg(leg, n, k, spacing);
        assert r[k] == geo.project(p, b, StepTo(leg, n, k));
        assert r[k + 1] == geo.project(p, b, StepTo(leg, n, k + 1));
      }
    }
  }

  lemma JoinSpaced(geo: Geo, a: seq<Point>, b: seq<Point>, spacing: real)
    requires a != [] && SpacedWithin(geo, a, spacing) && SpacedWithin(geo, [a[|a| - 1]] + b, spacing)
    ensures SpacedWithin(geo, a + b, spacing)
  {
    var c, d := a + b, [a[|a| - 1]] + b;
    forall k | 0 <= k < |c| - 1 ensures geo.distance(c[k], c[k + 1]) <= spacing {
      if k < |a| - 1 {
        assert c[k] == a[k] && c[k + 1] == a[k + 1];
      } else {
        assert c[k] == d[k - (|a| - 1)] && c[k + 1] == d[k - (|a| - 1) + 1];
      }
    }
  }

  /** No leg of the densified route is longer than the spacing. */
  lemma {:induction false} DensifiedIsSpaced(geo: Geo, w: seq<Point>, spacing: real)
    requires spacing > 0.0 && w != [] && ExactRoute(geo, w)
    ensures SpacedWithin(geo, [w[0]] + Chain(LegsOf(geo, spacing), w), spacing)
    decreases |w|
  {
    if |w| >= 2 {
      assert ExactLeg(geo, w[0], w[1]);
      assert ExactRoute(geo, w[1..]) by {
        forall k | 0 <= k < |w[1..]| - 1 ensures ExactLeg(geo, w[1..][k], w[1..][k + 1]) {
          assert ExactLeg(geo, w[k + 1], w[k + 2]);
        }
      }
      LegIsSpaced(geo, w[0], w[1], spacing);
      DensifiedIsSpaced(geo, w[1..], spacing);
      var first := [w[0]] + LegPoints(geo, w[0], w[1], spacing);
      JoinSpaced(geo, first, Chain(LegsOf(geo, spacing), w[1..]), spacing);
      assert [w[0]] + Chain(LegsOf(geo, spacing), w) == first + Chain(LegsOf(geo, spacing), w[1..]);
    }
  }

  lemma {:induction false} ShortLegsStay(geo: Geo, w: seq<Point>, spacing: real)
    requires spacing > 0.0 && w != [] && SpacedWithin(geo, w, spacing)
    ensures Chain(LegsOf(geo, spacing), w) == w[1..]
    decreases |w|
  {
    if |w| >= 2 {
      assert geo.distance(w[0], w[1]) <= spacing;
      assert SpacedWithin(geo, w[1..], spacing) by {
        forall k | 0 <= k < |w[1..]| - 1 ensures geo.distance(w[1..][k], w[1..][k + 1]) <= spacing {
          assert geo.distance(w[k + 1], w[k + 2]) <= spacing;
        }
      }
      ShortLegsStay(geo, w[1..], spacing);
    }
  }

  lemma {:induction false} LongLegAddsPoints(geo: Geo, w: seq<Point>, spacing: real)
    requires spacing > 0.0 && w != []
    ensures |Chain(LegsOf(geo, spacing), w)| >= |w| - 1
    ensures |Chain(LegsOf(geo, spacing), w)| == |w| - 1 ==> SpacedWithin(geo, w, spacing)
    decreases |w|
  {
    if |w| >= 2 {
      LegLength(geo, w[0], w[1], spacing);
      LongLegAddsPoints(geo, w[1..], spacing);
      if |Chain(LegsOf(geo, spacing), w)| == |w| - 1 {
        forall k | 0 <= k < |w| - 1 ensures geo.distance(w[k], w[k + 1]) <= spacing {
          assert k > 0 ==> geo.distance(w[1..][k - 1], w[1..][k]) <= spacing;
        }
      }
    }
  }

  /** Densification leaves a route alone exactly when no leg is longer than the spacing. */
  lemma UnchangedIff(geo: Geo, w: seq<Point>, spacing: real)
    requires spacing > 0.0
    ensures Densified(geo, w, spacing) == w <==> SpacedWithin(geo, w, spacing)
  {
    if |w| >= 2 {
      LongLegAddsPoints(geo, w, spacing);
      if SpacedWithin(geo, w, spacing) {
        ShortLegsStay(geo, w, spacing);
        assert [w[0]] + w[1..] == w;
      }
    }
  }

  /** Densifying twice is densifying once. */
  lemma DensifyIsIdempotent(geo: Geo, w: seq<Point>, spacing: real)
    requires ExactRoute(geo, w)
    ensures Densified(geo, Densified(geo, w, spacing), spacing) == Densified(geo, w, spacing)
  {
    if |w| >= 2 && spacing > 0.0 {
      DensifiedIsSpaced(geo, w, spacing);
      UnchangedIff(geo, Densified(geo, w, spacing), spacing);
    }
  }
}
