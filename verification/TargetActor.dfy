/** What a scenario asks of the target ship, and when the check of it passes. */
module TargetActor {
  import opened Options
  import opened RealMath
  import opened TraceRow
  import opened FastEvaluator
  import opened EvaluatorSlicing

  lemma {:induction false} GreatestBounds(xs: seq<real>)
    requires xs != []
    ensures Greatest(xs) in xs && forall x :: x in xs ==> x <= Greatest(xs)
  {
    if |xs| > 1 {
      GreatestBounds(xs[1..]);
      assert forall x :: x in xs <==> x == xs[0] || x in xs[1..];
    }
  }

  ghost predicate ResolvesFirst(rows: seq<Row>, k: int, s: Scenario, initial: real, limit: Option<real>) {
    && 0 <= k < |rows| && ResolvesWithin(rows[k], s, initial, limit)
    && forall j :: 0 <= j < k ==> !ResolvesWithin(rows[j], s, initial, limit)
  }

  lemma {:induction false} ResolutionIndex(rows: seq<Row>, s: Scenario, initial: real, limit: Option<real>, k: int)
    requires ResolvesFirst(rows, k, s, initial, limit)
    ensures FirstResolution(rows, s, initial, limit) == Some(rows[k].t)
  {
    if k > 0 {
      assert !ResolvesWithin(rows[0], s, initial, limit);
      assert forall j :: 0 <= j < k - 1 ==> rows[1..][j] == rows[j + 1];
      ResolutionIndex(rows[1..], s, initial, limit, k - 1);
    }
  }

  lemma {:induction false} ResolutionHasIndex(rows: seq<Row>, s: Scenario, initial: real, limit: Option<real>)
    returns (k: int)
    requires FirstResolution(rows, s, initial, limit).Some?
    ensures ResolvesFirst(rows, k, s, initial, limit)
  {
    if ResolvesWithin(rows[0], s, initial, limit) {
      k := 0;
    } else {
      var j := ResolutionHasIndex(rows[1..], s, initial, limit);
      k := j + 1;
      assert forall i :: 0 <= i < j ==> rows[1..][i] == rows[i + 1];
      forall i | 0 <= i < k ensures !ResolvesWithin(rows[i], s, initial, limit) {
        assert i > 0 ==> rows[1..][i - 1] == rows[i];
      }
    }
  }

  /** A world-state sample up to the limit that shows the target's heading. */
  ghost predicate TargetSample(r: Row, limit: Option<real>) {
    IsWorldState(r, limit) && ToFloat(r.targetHeading).Some?
  }

  /** The target did what the scenario asks of it: nothing, a starboard give-way in time, or holding course. */
  ghost predicate TargetComplies(rows: seq<Row>, s: Scenario, limit: Option<real>) {
    var initial := ToFloat(s.targetInitialHeading);
    if s.targetAction == "" || s.targetAction == "PASSIVE" then true
    else if s.targetAction == "GIVE_WAY_STARBOARD" then
      && initial.Some? && s.targetRequired > 0.0 && s.targetCpa > 0.0
      && exists k :: ResolvesFirst(rows, k, s, initial.value, limit) && rows[k].t <= s.targetDeadline + 0.000001
    else
      && s.targetAction == "HOLD" && initial.Some?
      && (exists r :: r in rows && TargetSample(r, limit))
      && forall r :: r in rows && TargetSample(r, limit) ==>
           Abs(Turn(ToFloat(r.targetHeading).value, initial.value)) <= 1.0
  }

  lemma {:induction false} DeviationsMeaning(rows: seq<Row>, initial: real, limit: Option<real>)
    ensures forall x :: x in TargetDeviations(rows, initial, limit) <==>
              exists r :: r in rows && TargetSample(r, limit) && x == Abs(Turn(ToFloat(r.targetHeading).value, initial))
  {
    if rows != [] {
      DeviationsMeaning(rows[1..], initial, limit);
      assert forall r :: r in rows <==> r == rows[0] || r in rows[1..];
      forall x
        ensures x in TargetDeviations(rows, initial, limit) <==>
                  x in TargetDeviations(rows[1..], initial, limit)
                  || (TargetSample(rows[0], limit)
                      && x == Abs(Turn(ToFloat(rows[0].targetHeading).value, initial)))
      {
      }
    }
  }

  lemma HoldsIff(rows: seq<Row>, s: Scenario, limit: Option<real>, round3: real -> real)
    requires s.targetAction == "HOLD" && ToFloat(s.targetInitialHeading).Some?
    ensures TargetHolds(rows, s, limit, round3).passed <==> TargetComplies(rows, s, limit)
  {
    var initial := ToFloat(s.targetInitialHeading).value;
    var ds := TargetDeviations(rows, initial, limit);
    DeviationsMeaning(rows, initial, limit);
    forall r | r in rows && TargetSample(r, limit)
      ensures Abs(Turn(ToFloat(r.targetHeading).value, initial)) in ds
    {
    }
    if ds != [] {
      GreatestBounds(ds);
      assert ds[0] in ds && Greatest(ds) in ds;
    }
  }

  lemma GivesWayIff(rows: seq<Row>, s: Scenario, limit: Option<real>, round3: real -> real)
    requires s.targetAction == "GIVE_WAY_STARBOARD"
    ensures TargetGivesWay(rows, s, limit, round3).passed <==> TargetComplies(rows, s, limit)
  {
    var initial := ToFloat(s.targetInitialHeading);
    if initial.Some? && s.targetRequired > 0.0 && s.targetCpa > 0.0 {
      var t := FirstResolution(rows, s, initial.value, limit);
      if t.Some? {
        var k := ResolutionHasIndex(rows, s, initial.value, limit);
        ResolutionIndex(rows, s, initial.value, limit, k);
        forall j | ResolvesFirst(rows, j, s, initial.value, limit) ensures rows[j].t == t.value {
          ResolutionIndex(rows, s, initial.value, limit, j);
        }
      } else {
        forall j ensures !ResolvesFirst(rows, j, s, initial.value, limit) {
          if ResolvesFirst(rows, j, s, initial.value, limit) {
            ResolutionIndex(rows, s, initial.value, limit, j);
          }
        }
      }
    }
  }

  lemma TargetCompliesIff(rows: seq<Row>, s: Scenario, limit: Option<real>, round3: real -> real)
    ensures TargetContract(rows, s, limit, round3).passed <==> TargetComplies(rows, s, limit)
  {
    if s.targetAction == "GIVE_WAY_STARBOARD" {
      GivesWayIff(rows, s, limit, round3);
    } else if s.targetAction == "HOLD" && ToFloat(s.targetInitialHeading).Some? {
      HoldsIff(rows, s, limit, round3);
    }
  }

  /** The realized starboard turn the verdict reports for the target: the largest one, or zero. */
  lemma {:induction false} TargetTurnMeaning(rows: seq<Row>, initial: real, limit: Option<real>)
    ensures var m := TargetTurn(rows, initial, limit);
            && m >= 0.0
            && (forall r :: r in rows && TargetSample(r, limit) ==> Turn(ToFloat(r.targetHeading).value, initial) <= m)
            && (m > 0.0 ==> exists r :: r in rows && TargetSample(r, limit)
                                        && Turn(ToFloat(r.targetHeading).value, initial) == m)
  {
    if rows != [] {
      TargetTurnMeaning(rows[1..], initial, limit);
      assert forall r :: r in rows <==> r == rows[0] || r in rows[1..];
    }
  }
}
