/** Real-valued helpers, and headings in degrees. */
module RealMath {

  /** Python's float `%`: the result has the sign of the modulus. */
  function FloatMod(x: real, m: real): real
    requires m > 0.0
  {
    x - m * ((x / m).Floor as real)
  }

  /** `((heading - base + 180.0) % 360.0) - 180.0`: signed change of heading, starboard positive. */
  function Turn(heading: real, base: real): (d: real)
    ensures -180.0 <= d < 180.0
  {
    var q := (heading - base + 180.0) / 360.0;
    assert q.Floor as real <= q < q.Floor as real + 1.0;
    FloatMod(heading - base + 180.0, 360.0) - 180.0
  }

  function FullTurns(k: int): real {
    360.0 * (k as real)
  }

  /** `d` is the change of heading exactly when it lies in [-180, 180) and leads from `base` to `heading`, up to
      full turns. */
  lemma TurnMeaning(heading: real, base: real, d: real)
    ensures d == Turn(heading, base) <==>
              -180.0 <= d < 180.0 && exists k: int :: base + d == heading + FullTurns(k)
  {
    var q := ((heading - base + 180.0) / 360.0).Floor;
    assert base + Turn(heading, base) == heading + FullTurns(-q);
    if -180.0 <= d < 180.0 && exists k: int :: base + d == heading + FullTurns(k) {
      var k: int :| base + d == heading + FullTurns(k);
      assert (k + q) as real == k as real + q as real;
      assert d - Turn(heading, base) == 360.0 * ((k + q) as real);
      assert -1 < k + q < 1;
    }
  }

  function Abs(x: real): real {
    if x >= 0.0 then x else -x
  }

  function Max(a: real, b: real): real {
    if a >= b then a else b
  }
}
