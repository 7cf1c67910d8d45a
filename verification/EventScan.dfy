/** Early-exit scans over an event sequence.

    `Run` is the meaning of a Python loop that folds a state over a list and may `return` from
    inside the body.  The lemmas are what such loops have in common: what they can depend on
    after they have returned, and which events they may skip.
 */
module EventScan {
  import opened StableSort

  datatype Step<+S, +B> = Go(state: S) | Halt(result: B)

  function Run<S(!new), E(!new), B(!new)>(
      step: (S, E) -> Step<S, B>, finish: S -> B, s: S, events: seq<E>): B
    decreases |events|
  {
    if events == [] then finish(s)
    else match step(s, events[0])
      case Halt(b) => b
      case Go(s') => Run(step, finish, s', events[1..])
  }

  /** Index of the event at which the scan returns, or the number of events. */
  function HaltIndex<S(!new), E(!new), B(!new)>(
      step: (S, E) -> Step<S, B>, s: S, events: seq<E>): (n: nat)
    ensures n <= |events|
    decreases |events|
  {
    if events == [] then 0
    else match step(s, events[0])
      case Halt(_) => 0
      case Go(s') => 1 + HaltIndex(step, s', events[1..])
  }

  /** The state in front of event `n`, for a scan that has not returned before it. */
  function After<S(!new), E(!new), B(!new)>(
      step: (S, E) -> Step<S, B>, s: S, events: seq<E>, n: nat): S
    requires n <= |events|
    decreases |events|
  {
    if n == 0 then s
    else match step(s, events[0])
      case Halt(_) => s
      case Go(s') => After(step, s', events[1..], n - 1)
  }

  lemma {:induction false} RunAtHalt<S(!new), E(!new), B(!new)>(
      step: (S, E) -> Step<S, B>, finish: S -> B, s: S, events: seq<E>)
    ensures var n := HaltIndex(step, s, events);
            var last := After(step, s, events, n);
            if n == |events| then Run(step, finish, s, events) == finish(last)
            else step(last, events[n]) == Halt(Run(step, finish, s, events))
    decreases |events|
  {
    if events != [] && step(s, events[0]).Go? {
      RunAtHalt(step, finish, step(s, events[0]).state, events[1..]);
    }
  }

  /** A trace of states that leads the scan to return at event `n`, or to the end. */
  lemma {:induction false} HaltsAt<S(!new), E(!new), B(!new)>(
      step: (S, E) -> Step<S, B>, events: seq<E>, states: seq<S>, n: nat)
    requires n <= |events| && |states| == n + 1
    requires forall k :: 0 <= k < n ==> step(states[k], events[k]) == Go(states[k + 1])
    requires n < |events| ==> step(states[n], events[n]).Halt?
    ensures HaltIndex(step, states[0], events) == n
    ensures After(step, states[0], events, n) == states[n]
    decreases n
  {
    if n > 0 {
      assert step(states[0], events[0]) == Go(states[1]);
      forall k | 0 <= k < n - 1
        ensures step(states[1..][k], events[1..][k]) == Go(states[1..][k + 1])
      {
        assert step(states[k + 1], events[k + 1]) == Go(states[k + 2]);
      }
      HaltsAt(step, events[1..], states[1..], n - 1);
    }
  }

  /** What follows the event at which a scan returns cannot change its result. */
  lemma {:induction false} RunIgnoresTail<S(!new), E(!new), B(!new)>(
      step: (S, E) -> Step<S, B>, finish: S -> B, s: S, a: seq<E>, b: seq<E>)
    requires HaltIndex(step, s, a) < |a|
    ensures Run(step, finish, s, a + b) == Run(step, finish, s, a)
    decreases |a|
  {
    assert (a + b)[0] == a[0] && (a + b)[1..] == a[1..] + b;
    if step(s, a[0]).Go? {
      RunIgnoresTail(step, finish, step(s, a[0]).state, a[1..], b);
    }
  }

  lemma {:induction false} HaltsBefore<S(!new), E(!new), B(!new)>(
      step: (S, E) -> Step<S, B>, s: S, a: seq<E>, b: seq<E>)
    requires HaltIndex(step, s, a + b) < |a|
    ensures HaltIndex(step, s, a) < |a|
    decreases |a|
  {
    assert (a + b)[0] == a[0] && (a + b)[1..] == a[1..] + b;
    if step(s, a[0]).Go? {
      HaltsBefore(step, step(s, a[0]).state, a[1..], b);
    }
  }

  /** The scan never changes state on, and never returns at, an event outside `p`. */
  ghost predicate OnlySees<S(!new), E(!new), B(!new)>(step: (S, E) -> Step<S, B>, p: E -> bool) {
    forall s: S, e: E :: !p(e) ==> step(s, e) == Go(s)
  }

  lemma {:induction false} RunSeesOnlySelected<S(!new), E(!new), B(!new)>(
      step: (S, E) -> Step<S, B>, finish: S -> B, p: E -> bool, s: S, events: seq<E>)
    requires OnlySees(step, p)
    ensures Run(step, finish, s, Filter(p, events)) == Run(step, finish, s, events)
    decreases |events|
  {
    if events != [] {
      if p(events[0]) {
        assert ([events[0]] + Filter(p, events[1..]))[1..] == Filter(p, events[1..]);
        if step(s, events[0]).Go? {
          RunSeesOnlySelected(step, finish, p, step(s, events[0]).state, events[1..]);
        }
      } else {
        RunSeesOnlySelected(step, finish, p, s, events[1..]);
      }
    }
  }
}
