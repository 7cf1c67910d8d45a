/** Rule 8(b) of the COLREGs: a succession of small alterations, counted as runs of heading chatter. */
module SmallAlterations {
  import opened RealMath

  const SMALL_ALTER_DEG := 10.0

  predicate Small(d: real) {
    Abs(d) < SMALL_ALTER_DEG
  }

  function Sign(d: real): int {
    if d >= 0.0 then 1 else -1
  }

  /** End of the block of small deviations that starts at `b`. */
  function End(devs: seq<real>, b: nat): (e: nat)
    requires b <= |devs|
    ensures b <= e <= |devs|
    ensures forall k :: b <= k < e ==> Small(devs[k])
    ensures e < |devs| ==> !Small(devs[e])
    decreases |devs| - b
  {
    if b == |devs| || !Small(devs[b]) then b else End(devs, b + 1)
  }

  /** Sign changes between neighbours inside `devs[b..e]`. */
  function Changes(devs: seq<real>, b: nat, e: nat): (n: nat)
    requires b <= e <= |devs|
    ensures b < e ==> n < e - b
    ensures b == e ==> n == 0
  {
    if e - b < 2 then 0
    else Changes(devs, b, e - 1) + if Sign(devs[e - 2]) != Sign(devs[e - 1]) then 1 else 0
  }

  predicate FlipsAt(devs: seq<real>, k: int) {
    0 < k < |devs| && Sign(devs[k - 1]) != Sign(devs[k])
  }

  /** The places inside `devs[b..e]` at which the sign changes. */
  function Flips(devs: seq<real>, b: nat, e: nat): set<int>
  {
    set k: int | b < k < e && FlipsAt(devs, k)
  }

  lemma {:induction false} ChangesCountFlips(devs: seq<real>, b: nat, e: nat)
    requires b <= e <= |devs|
    ensures Changes(devs, b, e) == |Flips(devs, b, e)|
  {
    if e - b < 2 {
      assert Flips(devs, b, e) == {};
    } else {
      ChangesCountFlips(devs, b, e - 1);
      var before := Flips(devs, b, e - 1);
      if Sign(devs[e - 2]) != Sign(devs[e - 1]) {
        assert Flips(devs, b, e) == before + {e - 1};
      } else {
        assert Flips(devs, b, e) == before;
      }
    }
  }

  /** A maximal block of consecutive small deviations with at least two sign changes. */
  predicate IsChatter(devs: seq<real>, b: nat) {
    && b < |devs| && Small(devs[b]) && (b == 0 || !Small(devs[b - 1]))
    && Changes(devs, b, End(devs, b)) >= 2
  }

  /** The chatter blocks that start at `from` or later, by their first index. */
  function ChatterBlocks(devs: seq<real>, from: nat): set<nat> {
    set b: nat | from <= b < |devs| && IsChatter(devs, b)
  }

  /** The chatter count block by block. */
  function RunsFrom(devs: seq<real>, b: nat): nat
    requires b <= |devs|
    decreases |devs| - b
  {
    var e := End(devs, b);
    (if Changes(devs, b, e) >= 2 then 1 else 0) + if e < |devs| then RunsFrom(devs, e + 1) else 0
  }

  /** The loop of `compute_phase_semantics`: `runLen` is one more than the sign changes of the block. */
  method SmallAlterationRunCount(devs: seq<real>) returns (smallRuns: nat)
    ensures smallRuns == |ChatterBlocks(devs, 0)|
  {
    smallRuns := 0;
    var runLen, prevSign := 0, 0;
    ghost var b: nat := 0;
    for i := 0 to |devs|
      invariant b <= i
      invariant forall k :: b <= k < i ==> Small(devs[k])
      invariant smallRuns + RunsFrom(devs, b) == RunsFrom(devs, 0)
      invariant b == i ==> runLen == 0 && prevSign == 0
      invariant b < i ==> runLen == 1 + Changes(devs, b, i) && prevSign == Sign(devs[i - 1])
    {
      EndSkips(devs, b, i);
      if Abs(devs[i]) < SMALL_ALTER_DEG {
        var sign := if devs[i] >= 0.0 then 1 else -1;
        if sign != prevSign && prevSign != 0 {
          runLen := runLen + 1;
        } else {
          runLen := if runLen >= 1 then runLen else 1;
        }
        prevSign := sign;
      } else {
        if runLen >= 3 {
          smallRuns := smallRuns + 1;
        }
        runLen, prevSign := 0, 0;
        b := i + 1;
      }
    }
    EndSkips(devs, b, |devs|);
    if runLen >= 3 {
      smallRuns := smallRuns + 1;
    }
    RunsCountBlocks(devs, 0);
  }

  lemma EndSkips(devs: seq<real>, b: nat, i: nat)
    requires b <= i <= |devs| && forall k :: b <= k < i ==> Small(devs[k])
    ensures End(devs, b) == End(devs, i)
  {
  }

  /** The block at `b`, when it chatters. */
  function BlockAt(devs: seq<real>, b: nat): (r: set<nat>)
    requires b <= |devs|
    ensures |r| == if Changes(devs, b, End(devs, b)) >= 2 then 1 else 0
  {
    if Changes(devs, b, End(devs, b)) >= 2 then {b} else {}
  }

  function BlocksAfter(devs: seq<real>, e: nat): set<nat> {
    if e < |devs| then ChatterBlocks(devs, e + 1) else {}
  }

  /** The blocks from `b` on are the one that starts at `b` and those after its end. */
  lemma BlocksSplit(devs: seq<real>, b: nat)
    requires b <= |devs| && (b == 0 || !Small(devs[b - 1]))
    ensures ChatterBlocks(devs, b) == BlockAt(devs, b) + BlocksAfter(devs, End(devs, b))
  {
  }

  lemma BlocksSize(devs: seq<real>, b: nat)
    requires b <= |devs| && (b == 0 || !Small(devs[b - 1]))
    ensures |ChatterBlocks(devs, b)| == |BlockAt(devs, b)| + |BlocksAfter(devs, End(devs, b))|
  {
    BlocksSplit(devs, b);
    assert BlockAt(devs, b) !! BlocksAfter(devs, End(devs, b));
  }

  /** Counting block by block counts the maximal chatter blocks. */
  lemma {:induction false} RunsCountBlocks(devs: seq<real>, b: nat)
    requires b <= |devs| && (b == 0 || !Small(devs[b - 1]))
    ensures RunsFrom(devs, b) == |ChatterBlocks(devs, b)|
    decreases |devs| - b
  {
    BlocksSize(devs, b);
    if End(devs, b) < |devs| {
      RunsCountBlocks(devs, End(devs, b) + 1);
    }
  }

  /** A chatter block needs three samples and a separator: at most (n + 1) / 4 of them fit. */
  lemma {:induction false} RunsAreFew(devs: seq<real>, b: nat)
    requires b <= |devs|
    ensures 4 * RunsFrom(devs, b) <= |devs| - b + 1
    decreases |devs| - b
  {
    var e := End(devs, b);
    if e < |devs| {
      RunsAreFew(devs, e + 1);
    }
  }

  lemma ChatterBound(devs: seq<real>)
    ensures |ChatterBlocks(devs, 0)| <= (|devs| + 1) / 4
  {
    RunsCountBlocks(devs, 0);
    RunsAreFew(devs, 0);
  }
}
