/** Signs of real products, and cancelling integer factors: the few nonlinear facts the rest needs. */
module Products {

  /** Products under a name of their own: comparisons of `Mul` terms with zero are stable. */
  function Mul(a: real, b: real): real {
    a * b
  }

  lemma MulSign(a: real, b: real)
    requires b > 0.0
    ensures Mul(a, b) > 0.0 <==> a > 0.0
    ensures Mul(a, b) < 0.0 <==> a < 0.0
  {
  }

  lemma MulNonneg(a: real, b: real)
    requires a >= 0.0 && b >= 0.0
    ensures Mul(a, b) >= 0.0
  {
  }

  lemma SquareSign(x: real)
    ensures Mul(x, x) >= 0.0
    ensures x != 0.0 ==> Mul(x, x) > 0.0
  {
    var y := 0.0 - x;
    if x > 0.0 {
      MulSign(x, x);
    } else if y > 0.0 {
      MulSign(y, y);
      assert Mul(x, x) == Mul(y, y);
    }
  }

  lemma MulAtLeast(p: int, r: int, d: int)
    requires p >= r && d >= 0
    ensures p * d >= r * d
  {
  }

  lemma CancelLess(p: int, r: int, d: int)
    requires d >= 1 && p * d < r * d
    ensures p < r
  {
  }

  /** `i / d == q` exactly for the i in [q d, (q + 1) d). */
  lemma Quotient(i: nat, d: nat, q: nat)
    requires d >= 1
    ensures i / d == q <==> q * d <= i < (q + 1) * d
  {
    var p := i / d;
    assert p * d <= i < p * d + d;
    assert (p + 1) * d == p * d + d;
    if q * d <= i < (q + 1) * d {
      CancelLess(p, q + 1, d);
      CancelLess(q, p + 1, d);
    }
  }

  lemma DivMonotone(i: nat, j: nat, d: nat)
    requires d >= 1 && i <= j
    ensures i / d <= j / d
  {
    Quotient(i, d, i / d);
    Quotient(j, d, j / d);
    CancelLess(i / d, j / d + 1, d);
  }
}
