/** The clear dwell of M6, read off the rows: when the encounter was active, then stayed clear long enough. */
module ClearDwell {
  import opened Options
  import opened TraceRow
  import opened FastBoundary

  predicate IsActive(r: Row) {
    IsConstraint(r) && EncounterActive(r)
  }

  predicate IsClear(r: Row) {
    IsConstraint(r) && !EncounterActive(r)
  }

  /** Row `c` opens the clear spell that is unbroken in front of `k`: it is the first M6 row after the last
      active row `a`. */
  ghost predicate OpensSpell(e: seq<Row>, a: int, c: int, k: int) {
    && 0 <= a < c < k <= |e|
    && IsActive(e[a]) && IsClear(e[c])
    && (forall j :: a < j < c ==> !IsConstraint(e[j]))
    && (forall j :: c < j < k ==> !IsActive(e[j]))
  }

  /** Row `k` is clear and at least `dwell` later than the row that opened its spell. */
  ghost predicate DwellComplete(clock: Row -> real, e: seq<Row>, dwell: real, k: int) {
    && 0 <= k < |e| && IsClear(e[k])
    && exists a, c :: OpensSpell(e, a, c, k) && clock(e[k]) - clock(e[c]) >= dwell
  }

  /** First index from `from` on at which the dwell is complete, or the number of rows. */
  ghost function FirstDwell(clock: Row -> real, e: seq<Row>, dwell: real, from: nat): (m: nat)
    requires from <= |e|
    ensures from <= m <= |e|
    ensures m < |e| ==> DwellComplete(clock, e, dwell, m)
    ensures forall k :: from <= k < m ==> !DwellComplete(clock, e, dwell, k)
    decreases |e| - from
  {
    if from == |e| || DwellComplete(clock, e, dwell, from) then from else FirstDwell(clock, e, dwell, from + 1)
  }

  // ----- The loop variables, as functions of the rows passed -----

  function LastActive(e: seq<Row>, n: nat): (a: int)
    requires n <= |e|
    ensures -1 <= a < n
    ensures a >= 0 ==> IsActive(e[a])
    ensures forall j :: a < j < n ==> !IsActive(e[j])
  {
    if n == 0 then -1 else if IsActive(e[n - 1]) then n - 1 else LastActive(e, n - 1)
  }

  function NextConstraint(e: seq<Row>, from: nat, n: nat): (c: nat)
    requires from <= n <= |e|
    ensures from <= c <= n
    ensures c < n ==> IsConstraint(e[c])
    ensures forall j :: from <= j < c ==> !IsConstraint(e[j])
    decreases n - from
  {
    if from == n || IsConstraint(e[from]) then from else NextConstraint(e, from + 1, n)
  }

  /** Time at which the clear spell in front of `n` was opened. */
  function SpellSince(clock: Row -> real, e: seq<Row>, n: nat): Option<real>
    requires n <= |e|
  {
    var a := LastActive(e, n);
    if a < 0 then None
    else
      var c := NextConstraint(e, a + 1, n);
      if c == n then None else Some(clock(e[c]))
  }

  function ClearStateAt(clock: Row -> real, e: seq<Row>, n: nat): ClearState
    requires n <= |e|
  {
    ClearState(LastActive(e, n) >= 0, SpellSince(clock, e, n))
  }

  lemma SpellOpener(clock: Row -> real, e: seq<Row>, n: nat) returns (a: int, c: int)
    requires n <= |e| && SpellSince(clock, e, n).Some?
    ensures OpensSpell(e, a, c, n) && SpellSince(clock, e, n) == Some(clock(e[c]))
  {
    a := LastActive(e, n);
    c := NextConstraint(e, a + 1, n);
  }

  /** A spell has one opener. */
  lemma OpenerIsSince(clock: Row -> real, e: seq<Row>, a: int, c: int, n: nat)
    requires n <= |e| && OpensSpell(e, a, c, n)
    ensures SpellSince(clock, e, n) == Some(clock(e[c]))
  {
    assert LastActive(e, n) == a;
    assert NextConstraint(e, a + 1, n) == c;
  }

  /** The loop's state moves as the rows say. */
  lemma ClearStateNext(clock: Row -> real, e: seq<Row>, n: nat)
    requires n < |e|
    ensures ClearStateAt(clock, e, n + 1)
         == if IsConstraint(e[n]) then ClearNext(ClearStateAt(clock, e, n), e[n], clock(e[n]))
            else ClearStateAt(clock, e, n)
  {
    var a := LastActive(e, n);
    if !IsActive(e[n]) && a >= 0 {
      assert LastActive(e, n + 1) == a;
      var c, c' := NextConstraint(e, a + 1, n), NextConstraint(e, a + 1, n + 1);
      assert c < n ==> c' == c;
    }
  }

  lemma DwellMetIff(clock: Row -> real, e: seq<Row>, n: nat, dwell: real)
    requires n < |e|
    ensures IsConstraint(e[n]) && DwellMet(ClearStateAt(clock, e, n), e[n], clock(e[n]), dwell)
       <==> DwellComplete(clock, e, dwell, n)
  {
    if SpellSince(clock, e, n).Some? {
      var a, c := SpellOpener(clock, e, n);
      assert LastActive(e, n) >= 0;
    }
    if DwellComplete(clock, e, dwell, n) {
      var a, c :| OpensSpell(e, a, c, n) && clock(e[n]) - clock(e[c]) >= dwell;
      OpenerIsSince(clock, e, a, c, n);
    }
  }
}
