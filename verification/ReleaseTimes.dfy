/** Three derivations of the instant at which an avoidance manoeuvre is released. */
module ReleaseTimes {
  import opened Options
  import opened TraceRow
  import opened StableSort

  /** An M4 behaviour record as the scenario runner reads it; `Absent` is a missing key. */
  datatype Plan = Plan(simT: real, behavior: Cell, avoidanceActive: Option<bool>)

  function SimTime(p: Plan): real {
    p.simT
  }

  /** `x == 0` in Python: also true of 0.0 and False, false of None. */
  predicate EqualsZero(c: Cell) {
    c == Whole(0) || c == Decimal(0.0) || c == Flag(false)
  }

  /** `_is_avoidance_behavior`: the label decides when there is one, else the flag. */
  function IsAvoidance(p: Plan): bool {
    if p.behavior != Absent then !EqualsZero(p.behavior) else p.avoidanceActive == Some(true)
  }

  function IsTransit(p: Plan): bool {
    EqualsZero(p.behavior)
  }

  function LastWhere(p: Plan -> bool, s: seq<Plan>): (n: int)
    ensures -1 <= n < |s|
    ensures n >= 0 ==> p(s[n])
    ensures forall k :: n < k < |s| ==> !p(s[k])
  {
    if s == [] then -1 else if p(s[|s| - 1]) then |s| - 1 else LastWhere(p, s[..|s| - 1])
  }

  function FirstWhere(p: Plan -> bool, s: seq<Plan>, from: nat): (n: nat)
    requires from <= |s|
    ensures from <= n <= |s|
    ensures n < |s| ==> p(s[n])
    ensures forall k :: from <= k < n ==> !p(s[k])
    decreases |s| - from
  {
    if from == |s| || p(s[from]) then from else FirstWhere(p, s, from + 1)
  }

  /** Index of the first record satisfying `ends` after the last one satisfying `avoids`; |s| if none. */
  function IndexAfterLast(avoids: Plan -> bool, ends: Plan -> bool, s: seq<Plan>): (n: nat)
    ensures n <= |s|
  {
    var last := LastWhere(avoids, s);
    if last < 0 then |s| else FirstWhere(ends, s, last + 1)
  }

  function ReleaseIndex(s: seq<Plan>): nat {
    IndexAfterLast(IsAvoidance, IsTransit, s)
  }

  function TimeAt(s: seq<Plan>, n: nat): Option<real> {
    if n < |s| then Some(s[n].simT) else None
  }

  function Ordered(plans: seq<Plan>): seq<Plan> {
    Sort(SimTime, plans)
  }

  function Release(plans: seq<Plan>): Option<real> {
    TimeAt(Ordered(plans), ReleaseIndex(Ordered(plans)))
  }

  lemma LastAfterOneMore(p: Plan -> bool, s: seq<Plan>, r: Plan)
    ensures LastWhere(p, s + [r]) == if p(r) then |s| else LastWhere(p, s)
  {
  }

  lemma {:induction false} FirstAfterOneMore(p: Plan -> bool, s: seq<Plan>, r: Plan, from: nat)
    requires from <= |s|
    ensures FirstWhere(p, s + [r], from)
         == if FirstWhere(p, s, from) < |s| then FirstWhere(p, s, from) else if p(r) then |s| else |s| + 1
    decreases |s| - from
  {
    if from < |s| {
      assert (s + [r])[from] == s[from];
      FirstAfterOneMore(p, s, r, from + 1);
    }
  }

  lemma TimeAfterOneMore(s: seq<Plan>, r: Plan, n: nat)
    ensures TimeAt(s + [r], n) == if n < |s| then TimeAt(s, n) else if n == |s| then Some(r.simT) else None
  {
  }

  lemma IndexStep(avoids: Plan -> bool, ends: Plan -> bool, s: seq<Plan>, r: Plan)
    ensures IndexAfterLast(avoids, ends, s + [r])
         == if avoids(r) || LastWhere(avoids, s) < 0 then |s| + 1
            else if IndexAfterLast(avoids, ends, s) < |s| then IndexAfterLast(avoids, ends, s)
            else if ends(r) then |s| else |s| + 1
  {
  }

  /** How one more record moves the release: avoidance resets it, and only the first TRANSIT after an
      avoidance sets it. */
  lemma ReleaseStep(avoids: Plan -> bool, ends: Plan -> bool, s: seq<Plan>, r: Plan)
    ensures LastWhere(avoids, s + [r]) == if avoids(r) then |s| else LastWhere(avoids, s)
    ensures var before, after := TimeAt(s, IndexAfterLast(avoids, ends, s)),
                                 TimeAt(s + [r], IndexAfterLast(avoids, ends, s + [r]));
            after == if avoids(r) then None
                     else if LastWhere(avoids, s) >= 0 && ends(r) && before.None? then Some(r.simT)
                     else before
  {
    LastAfterOneMore(avoids, s, r);
    IndexStep(avoids, ends, s, r);
    TimeAfterOneMore(s, r, IndexAfterLast(avoids, ends, s + [r]));
  }

  /** The resetting scan of `compute_route_return_status`, over ordered records. */
  method ResettingScan(avoids: Plan -> bool, ends: Plan -> bool, s: seq<Plan>) returns (release: Option<real>)
    ensures release == TimeAt(s, IndexAfterLast(avoids, ends, s))
  {
    release := None;
    var seen := false;
    for i := 0 to |s|
      invariant seen <==> LastWhere(avoids, s[..i]) >= 0
      invariant release == TimeAt(s[..i], IndexAfterLast(avoids, ends, s[..i]))
    {
      assert s[..i + 1] == s[..i] + [s[i]];
      ReleaseStep(avoids, ends, s[..i], s[i]);
      if avoids(s[i]) {
        seen := true;
        release := None;
      } else if seen && ends(s[i]) && release.None? {
        release := Some(s[i].simT);
      }
    }
    assert s[..|s|] == s;
  }

  /** The release of `compute_route_return_status`. */
  method OnePassRelease(plans: seq<Plan>) returns (release: Option<real>)
    ensures release == Release(plans)
  {
    release := ResettingScan(IsAvoidance, IsTransit, Sort(SimTime, plans));
  }

  method LastOf(p: Plan -> bool, s: seq<Plan>) returns (last: int)
    ensures last == LastWhere(p, s)
  {
    last := -1;
    for i := 0 to |s|
      invariant -1 <= last < i
      invariant last == LastWhere(p, s[..i])
    {
      assert s[..i + 1] == s[..i] + [s[i]];
      LastAfterOneMore(p, s[..i], s[i]);
      if p(s[i]) {
        last := i;
      }
    }
    assert s[..|s|] == s;
  }

  method FirstTimeOf(p: Plan -> bool, s: seq<Plan>, from: nat) returns (t: Option<real>)
    requires from <= |s|
    ensures t == TimeAt(s, FirstWhere(p, s, from))
  {
    for i := from to |s|
      invariant FirstWhere(p, s, from) == FirstWhere(p, s, i)
    {
      if p(s[i]) {
        return Some(s[i].simT);
      }
    }
    return None;
  }

  /** The search of `compute_phase_semantics`: last avoidance first, then the tail. */
  method TwoPassRelease(plans: seq<Plan>) returns (release: Option<real>)
    ensures release == Release(plans)
  {
    var s := Sort(SimTime, plans);
    var last := LastOf(IsAvoidance, s);
    if last < 0 {
      return None;
    }
    release := FirstTimeOf(IsTransit, s, last + 1);
  }

  /** What both compute, without reference to either loop: the release is the time of the one record that
      is TRANSIT, has an avoidance before it, no avoidance after it, and no TRANSIT in between. */
  ghost predicate IsRelease(s: seq<Plan>, n: int) {
    && 0 <= n < |s| && IsTransit(s[n])
    && exists last :: 0 <= last < n && IsAvoidance(s[last])
         && (forall k :: last < k < |s| ==> !IsAvoidance(s[k]))
         && (forall k :: last < k < n ==> !IsTransit(s[k]))
  }

  lemma ReleaseMeaning(s: seq<Plan>, n: nat)
    ensures IsRelease(s, n) <==> n < |s| && n == ReleaseIndex(s)
  {
  }

  // ----- The oracle's derivation -----

  /** `int(...) in (1, 2, 7)` */
  function OracleAvoids(p: Plan): bool {
    OracleCode(p) == Some(1) || OracleCode(p) == Some(2) || OracleCode(p) == Some(7)
  }

  /** `int(row.get("behavior", 0))` */
  function OracleCode(p: Plan): Option<int> {
    if p.behavior == Absent then Some(0) else ToInt(p.behavior)
  }

  function OracleTransits(p: Plan): bool {
    OracleCode(p) == Some(0)
  }

  function OracleIndex(s: seq<Plan>): nat {
    IndexAfterLast(OracleAvoids, OracleTransits, s)
  }

  /** `_first_release_after_avoidance`; an unreadable label raises before anything is returned. */
  method OracleRelease(plans: seq<Plan>) returns (release: Result<Option<real>>)
    ensures release.Ok? <==> forall p :: p in plans ==> OracleCode(p).Some?
    ensures release.Ok? ==> release.value == TimeAt(Ordered(plans), OracleIndex(Ordered(plans)))
  {
    var s := Sort(SimTime, plans);
    for i := 0 to |s|
      invariant forall k :: 0 <= k < i ==> OracleCode(s[k]).Some?
    {
      if OracleCode(s[i]).None? {
        assert s[i] in plans;
        return Err("unreadable behavior");
      }
    }
    forall p | p in plans ensures OracleCode(p).Some? {
      assert p in s;
    }
    var last := LastOf(OracleAvoids, s);
    if last < 0 {
      return Ok(None);
    }
    var t := FirstTimeOf(OracleTransits, s, last + 1);
    return Ok(t);
  }

  /** Two predicates that agree on the records find the same last and the same first one. */
  lemma SameFirst(p: Plan -> bool, q: Plan -> bool, s: seq<Plan>, from: nat)
    requires from <= |s| && forall r :: r in s ==> p(r) == q(r)
    ensures FirstWhere(p, s, from) == FirstWhere(q, s, from)
  {
  }

  lemma SkippedRecords(ends: Plan -> bool, s: seq<Plan>, mine: nat, last: nat)
    requires mine <= last < |s| && !ends(s[last])
    ensures FirstWhere(ends, s, mine + 1) == FirstWhere(ends, s, last + 1)
       <==> forall k :: mine < k < last ==> !ends(s[k])
  {
  }

  lemma LastOfFewer(fewer: Plan -> bool, avoids: Plan -> bool, s: seq<Plan>)
    requires forall r :: r in s && fewer(r) ==> avoids(r)
    ensures LastWhere(fewer, s) <= LastWhere(avoids, s)
  {
  }

  /** When fewer records count as avoidance, the release stays the same exactly when no end lies between
      the two last avoidances; with no avoidance left, exactly when there was no release at all. */
  lemma FewerAvoidances(fewer: Plan -> bool, avoids: Plan -> bool, ends: Plan -> bool, s: seq<Plan>)
    requires forall r :: r in s && fewer(r) ==> avoids(r)
    requires forall r :: r in s && avoids(r) ==> !ends(r)
    ensures IndexAfterLast(fewer, ends, s) == IndexAfterLast(avoids, ends, s) <==>
              if LastWhere(fewer, s) < 0
              then LastWhere(avoids, s) < 0 || forall k :: LastWhere(avoids, s) < k < |s| ==> !ends(s[k])
              else forall k :: LastWhere(fewer, s) < k < LastWhere(avoids, s) ==> !ends(s[k])
  {
    var mine, last := LastWhere(fewer, s), LastWhere(avoids, s);
    LastOfFewer(fewer, avoids, s);
    if mine >= 0 {
      assert s[last] in s;
      SkippedRecords(ends, s, mine, last);
    }
  }

  /** The oracle picks the same record as the runner exactly when the codes it does not know as avoidance
      do not matter: no TRANSIT lies between its last avoidance and the runner's, and, if it saw no
      avoidance at all, none follows the runner's. */
  lemma OracleAgreesIff(s: seq<Plan>)
    requires forall p :: p in s ==> p.behavior.Whole?
    ensures OracleIndex(s) == ReleaseIndex(s) <==>
              if LastWhere(OracleAvoids, s) < 0
              then LastWhere(IsAvoidance, s) < 0 || forall k :: LastWhere(IsAvoidance, s) < k < |s| ==> !IsTransit(s[k])
              else forall k :: LastWhere(OracleAvoids, s) < k < LastWhere(IsAvoidance, s) ==> !IsTransit(s[k])
  {
    if LastWhere(OracleAvoids, s) >= 0 {
      SameFirst(OracleTransits, IsTransit, s, LastWhere(OracleAvoids, s) + 1);
    }
    FewerAvoidances(OracleAvoids, IsAvoidance, IsTransit, s);
  }

  /** With codes from {0, 1, 2, 7} all three derivations agree. */
  lemma ThreeDerivationsAgree(plans: seq<Plan>)
    requires forall p :: p in plans ==> p.behavior in {Whole(0), Whole(1), Whole(2), Whole(7)}
    ensures TimeAt(Ordered(plans), OracleIndex(Ordered(plans))) == Release(plans)
  {
  }
}
