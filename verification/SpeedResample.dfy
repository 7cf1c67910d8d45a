/** Stretching the nominal speeds over the densified route. */
module SpeedResample {
  import opened Options
  import opened Products
  import opened RouteDensify

  const DEFAULT_SPEED_KN := 10.0

  function PerLeg(nominal: nat, densified: nat): (n: nat)
    requires nominal >= 2
    ensures n >= 1
  {
    MaxInt(1, densified / (nominal - 1))
  }

  /** The leg whose start speed point `i` gets. */
  function BucketLeg(i: nat, perLeg: nat, nominal: nat): (leg: nat)
    requires nominal >= 2 && perLeg >= 1
    ensures leg <= nominal - 2
  {
    if i / perLeg <= nominal - 2 then i / perLeg else nominal - 2
  }

  /** `_resample_speeds`; `Err` stands for the IndexError of a speed list that is too short. */
  method ResampleSpeeds(speeds: seq<real>, nominal: nat, densified: nat) returns (r: Result<seq<real>>)
    ensures r.Ok? ==> |r.value| == densified
    ensures speeds == [] ==> r.Ok? && forall i :: 0 <= i < densified ==> r.value[i] == DEFAULT_SPEED_KN
    ensures speeds != [] && (nominal < 2 || densified <= 1) ==>
              r.Ok? && forall i :: 0 <= i < densified ==> r.value[i] == speeds[0]
    ensures speeds != [] && nominal >= 2 && densified >= 2 ==>
              var per := PerLeg(nominal, densified);
              && (r.Ok? <==> forall i :: 0 <= i < densified - 1 ==> BucketLeg(i, per, nominal) < |speeds|)
              && (r.Ok? ==>
                    && r.value[densified - 1] == speeds[|speeds| - 1]
                    && forall i :: 0 <= i < densified - 1 ==> r.value[i] == speeds[BucketLeg(i, per, nominal)])
  {
    if densified == 0 {
      return Ok([]);
    }
    if speeds == [] {
      return Ok(seq(densified, _ => DEFAULT_SPEED_KN));
    }
    if nominal < 2 || densified <= 1 {
      return Ok(seq(densified, _ => speeds[0]));
    }
    var perLeg := MaxInt(1, densified / (nominal - 1));
    var out: seq<real> := [];
    for i := 0 to densified
      invariant |out| == i
      invariant forall k :: 0 <= k < i && k < densified - 1 ==>
                  BucketLeg(k, perLeg, nominal) < |speeds| && out[k] == speeds[BucketLeg(k, perLeg, nominal)]
      invariant i == densified ==> out[densified - 1] == speeds[|speeds| - 1]
    {
      var leg := if i / perLeg <= nominal - 2 then i / perLeg else nominal - 2;
      if i == densified - 1 {
        out := out + [speeds[|speeds| - 1]];
      } else {
        if leg >= |speeds| {
          assert BucketLeg(i, perLeg, nominal) >= |speeds|;
          return Err("list index out of range");
        }
        out := out + [speeds[leg]];
      }
    }
    return Ok(out);
  }

  lemma BucketMonotone(i: nat, j: nat, perLeg: nat, nominal: nat)
    requires nominal >= 2 && perLeg >= 1 && i <= j
    ensures BucketLeg(i, perLeg, nominal) <= BucketLeg(j, perLeg, nominal)
  {
    DivMonotone(i, j, perLeg);
  }

  /** A bucket has at least one point, and otherwise as many as fit when every leg gets the same number. */
  lemma PerLegMeaning(nominal: nat, densified: nat)
    requires nominal >= 2
    ensures var per := PerLeg(nominal, densified);
            && (per == 1 || per * (nominal - 1) <= densified) && densified < (per + 1) * (nominal - 1)
  {
    var legs, per := nominal - 1, PerLeg(nominal, densified);
    Quotient(densified, legs, densified / legs);
    MulAtLeast(per + 1, densified / legs + 1, legs);
  }

  /** Bucket `k` holds the points `k * perLeg` up to `(k + 1) * perLeg`; the last bucket all the rest. */
  lemma BucketMeaning(i: nat, perLeg: nat, nominal: nat, k: nat)
    requires nominal >= 2 && perLeg >= 1 && k <= nominal - 2
    ensures BucketLeg(i, perLeg, nominal) == k <==> k * perLeg <= i && (k == nominal - 2 || i < (k + 1) * perLeg)
  {
    var q := i / perLeg;
    Quotient(i, perLeg, q);
    Quotient(i, perLeg, k);
    if q >= k {
      MulAtLeast(q, k, perLeg);
    } else {
      MulAtLeast(k, q + 1, perLeg);
    }
  }

  // ----- After densification -----

  /** The joint use in `_load_scenario`: with one speed per nominal waypoint nothing is out of range, every
      densified waypoint gets a speed, and every nominal leg is represented. */
  lemma EveryLegAppears(nominal: nat, densified: nat, leg: nat)
    requires 2 <= nominal <= densified && leg <= nominal - 2
    ensures var per := PerLeg(nominal, densified);
            leg * per < densified - 1 && BucketLeg(leg * per, per, nominal) == leg
  {
    var per, legs := PerLeg(nominal, densified), nominal - 1;
    var d := densified / legs;
    Quotient(densified, legs, d);
    DivMonotone(legs, densified, legs);
    assert per == d >= 1;
    MulAtLeast(legs, leg + 1, d);
    assert (leg + 1) * d == leg * d + d && d * legs == legs * d;
    assert d == 1 ==> leg * d == leg;
    Quotient(leg * per, per, leg);
    assert (leg + 1) * per == leg * per + per;
  }

  lemma DensifiedHasEnoughPoints(geo: Geo, w: seq<Point>, spacing: real)
    requires |w| >= 2
    ensures |Densified(geo, w, spacing)| >= |w|
  {
    if spacing > 0.0 {
      LongLegAddsPoints(geo, w, spacing);
    }
  }

  /** Speeds of a densified route, as one statement about its result `out`. */
  lemma ResampledRoute(geo: Geo, w: seq<Point>, spacing: real, speeds: seq<real>, leg: nat)
    requires |w| >= 2 && |speeds| == |w| && leg <= |w| - 2
    ensures var n, d := |w|, |Densified(geo, w, spacing)|;
            var per := PerLeg(n, d);
            && (forall i :: 0 <= i < d - 1 ==> BucketLeg(i, per, n) < |speeds|)
            && (exists i :: 0 <= i < d - 1 && BucketLeg(i, per, n) == leg)
  {
    var n, d := |w|, |Densified(geo, w, spacing)|;
    DensifiedHasEnoughPoints(geo, w, spacing);
    EveryLegAppears(n, d, leg);
  }

  // ----- When the speed of a point is the speed of its own leg -----

  /** Point `i` of the densified route lies on leg `k`. */
  predicate OnLeg(steps: seq<nat>, k: nat, i: nat)
    requires k < |steps|
  {
    Offset(steps, k) <= i < Offset(steps, k + 1)
  }

  /** Every point but the last is in the bucket of the leg it lies on. */
  ghost predicate Aligned(steps: seq<nat>, per: nat)
    requires |steps| >= 1 && per >= 1
  {
    forall k: nat, i: nat :: k < |steps| && OnLeg(steps, k, i) ==> BucketLeg(i, per, |steps| + 1) == k
  }

  ghost predicate EvenSteps(steps: seq<nat>, per: nat) {
    forall k :: 0 <= k < |steps| - 1 ==> steps[k] == per
  }

  lemma {:induction false} EvenOffsets(steps: seq<nat>, per: nat, k: nat)
    requires |steps| >= 1 && EvenSteps(steps, per) && k < |steps|
    ensures Offset(steps, k) == k * per
  {
    if k > 0 {
      EvenOffsets(steps, per, k - 1);
      assert steps[k - 1] == per;
      assert (k - 1) * per + per == k * per;
    }
  }

  lemma EvenIsAligned(steps: seq<nat>, per: nat)
    requires |steps| >= 1 && per >= 1 && EvenSteps(steps, per)
    ensures Aligned(steps, per)
  {
    forall k: nat, i: nat | k < |steps| && OnLeg(steps, k, i)
      ensures BucketLeg(i, per, |steps| + 1) == k
    {
      EvenOffsets(steps, per, k);
      if k < |steps| - 1 {
        assert steps[k] == per;
        assert (k + 1) * per == k * per + per;
        Quotient(i, per, k);
      } else {
        Quotient(k * per, per, k);
        assert (k + 1) * per == k * per + per;
        DivMonotone(k * per, i, per);
      }
    }
  }

  lemma BucketBounds(i: nat, per: nat, nominal: nat)
    requires nominal >= 2 && per >= 1
    ensures var leg := BucketLeg(i, per, nominal);
            leg * per <= i && (leg < nominal - 2 ==> i < (leg + 1) * per)
  {
    Quotient(i, per, i / per);
    MulAtLeast(i / per, BucketLeg(i, per, nominal), per);
  }

  lemma AlignedOffsets(steps: seq<nat>, per: nat, k: nat)
    requires |steps| >= 1 && per >= 1 && Aligned(steps, per) && k < |steps|
    requires forall j :: 0 <= j < |steps| ==> steps[j] >= 1
    ensures Offset(steps, k) == k * per
  {
    if k > 0 {
      var i := Offset(steps, k);
      OffsetsIncrease(steps, k - 1, k);
      OffsetsIncrease(steps, k, k + 1);
      assert OnLeg(steps, k - 1, i - 1) && OnLeg(steps, k, i);
      BucketBounds(i - 1, per, |steps| + 1);
      BucketBounds(i, per, |steps| + 1);
    }
  }

  /** Every bucket is its own leg exactly when every leg but the last has as many sub-legs as the bucket size. */
  lemma AlignedIff(steps: seq<nat>, per: nat)
    requires |steps| >= 1 && per >= 1 && forall j :: 0 <= j < |steps| ==> steps[j] >= 1
    ensures Aligned(steps, per) <==> EvenSteps(steps, per)
  {
    if EvenSteps(steps, per) {
      EvenIsAligned(steps, per);
    }
    if Aligned(steps, per) {
      forall k | 0 <= k < |steps| - 1 ensures steps[k] == per {
        AlignedOffsets(steps, per, k);
        AlignedOffsets(steps, per, k + 1);
        assert (k + 1) * per == k * per + per;
      }
    }
  }

  /** With the speeds `speeds`, every point but the last gets the start speed of the leg it lies on. */
  ghost predicate Held(speeds: seq<real>, steps: seq<nat>, per: nat)
    requires |speeds| == |steps| + 1 && |steps| >= 1 && per >= 1
  {
    forall k: nat, i: nat :: k < |steps| && OnLeg(steps, k, i) ==>
      speeds[BucketLeg(i, per, |steps| + 1)] == speeds[k]
  }

  /** The bucket size that `_resample_speeds` computes for a route with these sub-legs. */
  function BucketSize(steps: seq<nat>): (per: nat)
    requires |steps| >= 1
    ensures per >= 1
  {
    PerLeg(|steps| + 1, 1 + Offset(steps, |steps|))
  }

  function Distinct(n: nat): (speeds: seq<real>)
    ensures |speeds| == n && forall k :: 0 <= k < n ==> speeds[k] == k as real
  {
    seq(n, k requires 0 <= k < n => k as real)
  }

  lemma AlignedHolds(speeds: seq<real>, steps: seq<nat>, per: nat)
    requires |speeds| == |steps| + 1 && |steps| >= 1 && per >= 1 && Aligned(steps, per)
    ensures Held(speeds, steps, per)
  {
  }

  lemma DistinctHeldIsAligned(steps: seq<nat>, per: nat)
    requires |steps| >= 1 && per >= 1 && Held(Distinct(|steps| + 1), steps, per)
    ensures Aligned(steps, per)
  {
    forall k: nat, i: nat | k < |steps| && OnLeg(steps, k, i) ensures BucketLeg(i, per, |steps| + 1) == k {
      assert Distinct(|steps| + 1)[BucketLeg(i, per, |steps| + 1)] == Distinct(|steps| + 1)[k];
    }
  }

  /** The documented profile, with each leg's start speed held across that leg, comes out for every speed list
      exactly when every leg but the last has as many sub-legs as the bucket size. */
  lemma HeldForAllIff(steps: seq<nat>)
    requires |steps| >= 1 && forall j :: 0 <= j < |steps| ==> steps[j] >= 1
    ensures (forall speeds: seq<real> | |speeds| == |steps| + 1 :: Held(speeds, steps, BucketSize(steps)))
       <==> EvenSteps(steps, BucketSize(steps))
  {
    var per := BucketSize(steps);
    AlignedIff(steps, per);
    if EvenSteps(steps, per) {
      forall speeds: seq<real> | |speeds| == |steps| + 1 ensures Held(speeds, steps, per) {
        AlignedHolds(speeds, steps, per);
      }
    }
    if forall speeds: seq<real> | |speeds| == |steps| + 1 :: Held(speeds, steps, per) {
      assert Held(Distinct(|steps| + 1), steps, per);
      DistinctHeldIsAligned(steps, per);
    }
  }

  /** At constant speed the profile comes out on every route. */
  lemma ConstantSpeedIsHeld(speeds: seq<real>, steps: seq<nat>)
    requires |speeds| == |steps| + 1 && |steps| >= 1
    requires forall k :: 0 <= k < |steps| ==> speeds[k] == speeds[0]
    ensures Held(speeds, steps, BucketSize(steps))
  {
    forall k: nat, i: nat | k < |steps| && OnLeg(steps, k, i)
      ensures speeds[BucketLeg(i, BucketSize(steps), |steps| + 1)] == speeds[k]
    {
      assert BucketLeg(i, BucketSize(steps), |steps| + 1) < |steps|;
    }
  }

  /** A leg without sub-waypoints at 5 knots and one of three sub-legs at 15: the second point, where the fast
      leg starts, gets 5 knots. */
  lemma UnevenLegsAreMisaligned()
    ensures var steps: seq<nat> := [1, 3];
            var speeds := [5.0, 15.0, 15.0];
            && BucketSize(steps) == 2 && OnLeg(steps, 1, 1)
            && speeds[BucketLeg(1, 2, 3)] == 5.0 != speeds[1]
            && !Held(speeds, steps, 2)
  {
    var steps: seq<nat> := [1, 3];
    var speeds := [5.0, 15.0, 15.0];
    assert Offset(steps, 0) == 0 && Offset(steps, 1) == 1 && Offset(steps, 2) == 4;
    assert OnLeg(steps, 1, 1) && speeds[BucketLeg(1, 2, 3)] == 5.0;
  }
}
