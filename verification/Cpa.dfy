/** Closest point of approach, over the reals.

    `sqrt` is any function that squares back on the non-negative reals; headings enter as unit
    vectors.  Floating-point rounding is not modelled.
 */
module Cpa {
  import opened Products
  import opened RealMath

  datatype Vec = Vec(e: real, n: real) {
    function Plus(w: Vec): Vec {
      Vec(e + w.e, n + w.n)
    }

    function Minus(w: Vec): Vec {
      Vec(e - w.e, n - w.n)
    }

    function Times(k: real): Vec {
      Vec(k * e, k * n)
    }

    function Dot(w: Vec): real {
      e * w.e + n * w.n
    }
  }

  ghost predicate IsSqrt(sqrt: real -> real) {
    forall x :: x >= 0.0 ==> sqrt(x) >= 0.0 && sqrt(x) * sqrt(x) == x
  }

  /** `math.hypot` */
  function Norm(sqrt: real -> real, v: Vec): real {
    sqrt(v.Dot(v))
  }

  const SPEED_SQ_GUARD := 0.000000001

  datatype Approach = Approach(dcpa: real, tcpa: real)

  /** `_cpa_tcpa_m`, identical in the runner and in the trace evaluator: position and velocity of the
      target relative to own ship. */
  function CpaTcpa(sqrt: real -> real, p: Vec, v: Vec): Approach {
    if v.Dot(v) <= SPEED_SQ_GUARD then Approach(Norm(sqrt, p), -1.0)
    else
      var tcpa := -(p.Dot(v) / v.Dot(v));
      Approach(Norm(sqrt, p.Plus(v.Times(Max(tcpa, 0.0)))), tcpa)
  }

  /** Separation after `t` seconds on straight tracks. */
  function DistanceAt(sqrt: real -> real, p: Vec, v: Vec, t: real): real {
    Norm(sqrt, p.Plus(v.Times(t)))
  }

  function SquareAt(p: Vec, v: Vec, t: real): real {
    p.Plus(v.Times(t)).Dot(p.Plus(v.Times(t)))
  }

  function Growth(t: real, pv: real, vv: real): real {
    2.0 * t * pv + t * t * vv
  }

  lemma SquareExpands(p: Vec, v: Vec, t: real)
    ensures SquareAt(p, v, t) == p.Dot(p) + Growth(t, p.Dot(v), v.Dot(v))
  {
  }

  lemma SquareNonneg(v: Vec)
    ensures v.Dot(v) >= 0.0
    ensures v.e != 0.0 || v.n != 0.0 ==> v.Dot(v) > 0.0
  {
    SquareSign(v.e);
    SquareSign(v.n);
    assert v.Dot(v) == Mul(v.e, v.e) + Mul(v.n, v.n);
  }

  lemma RootsOrder(sqrt: real -> real, a: real, b: real)
    requires IsSqrt(sqrt) && a >= 0.0 && b >= 0.0
    ensures sqrt(a) <= sqrt(b) <==> a <= b
  {
    var x, y := sqrt(a), sqrt(b);
    if x <= y {
      MulNonneg(x + y, y - x);
      assert y * y - x * x == Mul(x + y, y - x);
    } else {
      MulSign(x + y, x - y);
      assert x * x - y * y == Mul(x + y, x - y);
    }
  }

  lemma NormsOrder(sqrt: real -> real, a: Vec, b: Vec)
    requires IsSqrt(sqrt)
    ensures Norm(sqrt, a) <= Norm(sqrt, b) <==> a.Dot(a) <= b.Dot(b)
  {
    SquareNonneg(a);
    SquareNonneg(b);
    RootsOrder(sqrt, a.Dot(a), b.Dot(b));
  }

  lemma DistancesOrder(sqrt: real -> real, p: Vec, v: Vec, t: real, u: real)
    requires IsSqrt(sqrt)
    ensures DistanceAt(sqrt, p, v, t) <= DistanceAt(sqrt, p, v, u) <==> SquareAt(p, v, t) <= SquareAt(p, v, u)
  {
    NormsOrder(sqrt, p.Plus(v.Times(t)), p.Plus(v.Times(u)));
  }

  /** The quadratic in t around its vertex. */
  lemma SquareAroundVertex(p: Vec, v: Vec, t0: real, t: real)
    requires t0 * v.Dot(v) == -p.Dot(v)
    ensures SquareAt(p, v, t) == SquareAt(p, v, t0) + Mul(Mul(t - t0, t - t0), v.Dot(v))
  {
  }

  lemma VertexIsTcpa(p: Vec, v: Vec)
    requires v.Dot(v) > 0.0
    ensures -(p.Dot(v) / v.Dot(v)) * v.Dot(v) == -p.Dot(v)
  {
  }

  lemma NearerToVertex(x: real, y: real, k: real)
    requires 0.0 <= y <= x || y == 0.0
    requires k >= 0.0
    ensures Mul(Mul(y, y), k) <= Mul(Mul(x, x), k)
  {
    var d := Mul(x, x) - Mul(y, y);
    if y == 0.0 {
      SquareSign(x);
    } else {
      MulNonneg(x - y, x + y);
      assert d == Mul(x - y, x + y);
    }
    MulNonneg(d, k);
    assert Mul(d, k) == Mul(Mul(x, x), k) - Mul(Mul(y, y), k);
  }

  /** Above the speed guard no later separation is smaller, and the returned one occurs at max(tcpa, 0). */
  lemma CpaIsLeast(sqrt: real -> real, p: Vec, v: Vec, t: real)
    requires IsSqrt(sqrt) && v.Dot(v) > SPEED_SQ_GUARD && t >= 0.0
    ensures CpaTcpa(sqrt, p, v).dcpa == DistanceAt(sqrt, p, v, Max(CpaTcpa(sqrt, p, v).tcpa, 0.0))
    ensures CpaTcpa(sqrt, p, v).dcpa <= DistanceAt(sqrt, p, v, t)
  {
    var t0 := -(p.Dot(v) / v.Dot(v));
    var best := Max(t0, 0.0);
    VertexIsTcpa(p, v);
    SquareAroundVertex(p, v, t0, t);
    SquareAroundVertex(p, v, t0, best);
    var vv, x, y := v.Dot(v), t - t0, best - t0;
    assert 0.0 <= y <= x || y == 0.0;
    NearerToVertex(x, y, vv);
    DistancesOrder(sqrt, p, v, best, t);
  }

  lemma TcpaSign(sqrt: real -> real, p: Vec, v: Vec)
    ensures CpaTcpa(sqrt, p, v).tcpa < 0.0 <==> v.Dot(v) <= SPEED_SQ_GUARD || p.Dot(v) > 0.0
  {
  }

  /** Below the guard the code returns the present distance; that is the least one exactly when the
      ships are not closing. */
  lemma SlowClosingIsMissed(sqrt: real -> real, p: Vec, v: Vec)
    requires IsSqrt(sqrt) && v.Dot(v) <= SPEED_SQ_GUARD && p.Dot(v) < 0.0
    ensures exists t :: t >= 0.0 && CpaTcpa(sqrt, p, v).dcpa > DistanceAt(sqrt, p, v, t)
  {
    SquareNonneg(v);
    var pv, vv := p.Dot(v), v.Dot(v);
    var t0 := -(pv / vv);
    VertexIsTcpa(p, v);
    assert vv > 0.0;
    MulSign(t0, vv);
    MulSign(t0, t0);
    MulSign(Mul(t0, t0), vv);
    SquareAroundVertex(p, v, t0, 0.0);
    assert SquareAt(p, v, 0.0) == SquareAt(p, v, t0) + Mul(Mul(t0, t0), vv);
    assert p.Plus(v.Times(0.0)) == p;
    NormsOrder(sqrt, p, p.Plus(v.Times(t0)));
    assert CpaTcpa(sqrt, p, v).dcpa > DistanceAt(sqrt, p, v, t0);
  }

  lemma OpeningTerms(t: real, pv: real, vv: real)
    requires t >= 0.0 && pv >= 0.0 && vv >= 0.0
    ensures Growth(t, pv, vv) >= 0.0
  {
  }

  lemma SlowOpeningIsFine(sqrt: real -> real, p: Vec, v: Vec, t: real)
    requires IsSqrt(sqrt) && p.Dot(v) >= 0.0 && t >= 0.0
    ensures Norm(sqrt, p) <= DistanceAt(sqrt, p, v, t)
  {
    SquareNonneg(v);
    SquareExpands(p, v, t);
    OpeningTerms(t, p.Dot(v), v.Dot(v));
    NormsOrder(sqrt, p, p.Plus(v.Times(t)));
  }

  /** The returned distance is the least future separation exactly when the relative speed passes the
      guard or the ships are not closing. */
  lemma CpaOptimalIff(sqrt: real -> real, p: Vec, v: Vec)
    requires IsSqrt(sqrt)
    ensures (forall t :: t >= 0.0 ==> CpaTcpa(sqrt, p, v).dcpa <= DistanceAt(sqrt, p, v, t))
       <==> v.Dot(v) > SPEED_SQ_GUARD || p.Dot(v) >= 0.0
  {
    if v.Dot(v) > SPEED_SQ_GUARD {
      forall t | t >= 0.0 ensures CpaTcpa(sqrt, p, v).dcpa <= DistanceAt(sqrt, p, v, t) {
        CpaIsLeast(sqrt, p, v, t);
      }
    } else if p.Dot(v) >= 0.0 {
      forall t | t >= 0.0 ensures CpaTcpa(sqrt, p, v).dcpa <= DistanceAt(sqrt, p, v, t) {
        SlowOpeningIsFine(sqrt, p, v, t);
      }
    } else {
      SlowClosingIsMissed(sqrt, p, v);
    }
  }
}
