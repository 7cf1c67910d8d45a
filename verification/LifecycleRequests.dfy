/** An activate, deactivate or cleanup request that nothing competes with. */
module LifecycleRequests {
  import opened Options
  import opened LifecycleBridge
  import opened LifecycleRuns
  import opened LifecycleReset

  /** Only call `i`, which does not give up, gets to run, and the messages from `base` on are served: no timer
      expires, no other request is made, and no older message is served late. */
  ghost predicate Quiet(steps: seq<Step>, i: nat, base: nat) {
    forall k :: 0 <= k < |steps| ==> steps[k] == Resume(i, true) || (steps[k].Serve? && steps[k].message >= base)
  }

  /** Whether a request that changes the state by `t` is waiting for the answer to message `m`, broadcasting, or
      at its end. */
  datatype Phase = Waiting | Telling | Done(success: bool) | Elsewhere

  function PhaseOf(c: Call, t: Transition, m: nat): Phase {
    if t == DoActivate && c == ActChange(m) then Waiting
    else if t == DoActivate && c == ActBroadcast then Telling
    else if t == DoDeactivate && c == DeaChange(m) then Waiting
    else if t == DoDeactivate && c == DeaBroadcast then Telling
    else if t == DoCleanup && c == CleChange(m) then Waiting
    else if t == DoCleanup && c == CleBroadcast then Telling
    else if c.Returned? then Done(c.success)
    else Elsewhere
  }

  ghost predicate AllDead(b: Bridge) {
    b.timerTask.None? && b.backupTask.None? && forall k :: 0 <= k < |b.tasks| ==> !Live(b.tasks[k])
  }

  /** Exactly two timers are live, one of each kind, and both are held. */
  ghost predicate BothArmed(b: Bridge) {
    && b.timerTask.Some? && b.timerTask.value < |b.tasks|
    && b.tasks[b.timerTask.value] == Task(AutoStop, Sleeping, false)
    && b.backupTask.Some? && b.backupTask.value < |b.tasks|
    && b.tasks[b.backupTask.value] == Task(Backup, Sleeping, false)
    && forall k :: 0 <= k < |b.tasks| && Live(b.tasks[k]) ==> Some(k) == b.timerTask || Some(k) == b.backupTask
  }

  /** What a granted request has made of the bridge `was` when it returns. */
  ghost predicate Concluded(t: Transition, was: Bridge, b: Bridge) {
    && b.duration == was.duration
    && match t
       case DoActivate =>
         && b.mirror == Active && b.scenario == was.scenario
         && if was.duration.Some? then BothArmed(b) else AllDead(b)
       case DoDeactivate => b.mirror == Inactive && b.scenario == was.scenario && AllDead(b)
       case DoCleanup => b.mirror == Unconfigured && b.scenario.None? && AllDead(b)
       case DoConfigure => false
  }

  ghost predicate ToldNothingYet(t: Transition, was: Bridge, b: Bridge) {
    if t == DoActivate then b == was.(mirror := Active) else Concluded(t, was, b)
  }

  /** What holds of a request for `t`, made in state `was`, until its end. */
  ghost predicate OnWay(was: System, s: System, t: Transition) {
    var i, m := |was.calls|, |was.messages|;
    && |s.calls| == i + 1 && |s.messages| == m + 1
    && s.messages[m].ask == Change(t)
    && (s.messages[m].reply == NoReply || s.messages[m].reply == Outcome(Moves(was.node, t).Some?))
    && s.node == (if s.messages[m].reply == NoReply then was.node else AfterChange(was.node, t, true))
    && match PhaseOf(s.calls[i], t, m)
       case Waiting => s.b == was.b
       case Telling => s.messages[m].reply == Outcome(true) && ToldNothingYet(t, was.b, s.b)
       case Done(success) =>
         && s.messages[m].reply == Outcome(success)
         && if success then Concluded(t, was.b, s.b) else s.b == was.b
       case Elsewhere => false
  }

  /** Polls that find what they wait for, until the request returns. */
  function Left(c: Call, t: Transition, m: nat): nat {
    if PhaseOf(c, t, m).Waiting? then 2 else if PhaseOf(c, t, m).Telling? then 1 else 0
  }

  /** The request, as a step and as the call it becomes. */
  function Asking(t: Transition): Step
    requires t != DoConfigure
  {
    match t
    case DoActivate => Activate(true)
    case DoDeactivate => Deactivate(true)
    case DoCleanup => Cleanup(true)
  }

  lemma ServeStaysOnWay(was: System, s: System, t: Transition, m: nat)
    requires OnWay(was, s, t) && m >= |was.messages|
    ensures OnWay(was, Served(s, m), t) && Served(s, m).calls == s.calls
  {
  }

  /** One ready poll forward; an early one changes nothing. */
  ghost predicate Moved(was: System, s: System, e: System, t: Transition)
    requires |was.calls| < |s.calls|
  {
    var i, m := |was.calls|, |was.messages|;
    && OnWay(was, e, t)
    && (IsReady(s, i) && Left(s.calls[i], t, m) > 0 ==> Left(e.calls[i], t, m) < Left(s.calls[i], t, m))
    && (!IsReady(s, i) || Left(s.calls[i], t, m) == 0 ==> e == s)
  }

  lemma DroppedIsDead(b: Bridge)
    requires NoOrphans(b)
    ensures AllDead(TimersDropped(b))
  {
    DroppedTimersAreDead(b);
  }

  lemma StartedIsArmed(b: Bridge)
    requires NoOrphans(b)
    ensures var e := TimersStarted(b);
            && e.mirror == b.mirror && e.scenario == b.scenario && e.duration == b.duration
            && if b.duration.Some? then BothArmed(e) else AllDead(e)
  {
    DroppedIsDead(b);
  }

  lemma ActivateMoves(was: System, s: System)
    requires OnWay(was, s, DoActivate) && NoOrphans(was.b)
    ensures Moved(was, s, Resumed(s, |was.calls|, true), DoActivate)
  {
    if s.calls[|was.calls|].ActBroadcast? {
      StartedIsArmed(s.b);
    }
  }

  lemma DeactivateMoves(was: System, s: System)
    requires OnWay(was, s, DoDeactivate) && NoOrphans(was.b)
    ensures Moved(was, s, Resumed(s, |was.calls|, true), DoDeactivate)
  {
    DroppedIsDead(s.b);
  }

  lemma CleanupMoves(was: System, s: System)
    requires OnWay(was, s, DoCleanup) && NoOrphans(was.b)
    ensures Moved(was, s, Resumed(s, |was.calls|, true), DoCleanup)
  {
    DroppedIsDead(s.b);
  }

  lemma {:induction false} RunStaysOnWay(was: System, s: System, steps: seq<Step>, t: Transition)
    requires OnWay(was, s, t) && NoOrphans(was.b) && Quiet(steps, |was.calls|, |was.messages|)
    ensures var i, m, e := |was.calls|, |was.messages|, Run(s, steps);
            && OnWay(was, e, t)
            && (Left(e.calls[i], t, m) == 0
                || Left(e.calls[i], t, m) + ReadyPolls(s, steps, i) <= Left(s.calls[i], t, m))
    decreases |steps|
  {
    if steps != [] {
      var e := Next(s, steps[0]);
      if steps[0].Serve? {
        ServeStaysOnWay(was, s, t, steps[0].message);
      } else if t == DoActivate {
        ActivateMoves(was, s);
      } else if t == DoDeactivate {
        DeactivateMoves(was, s);
      } else if t == DoCleanup {
        CleanupMoves(was, s);
      }
      assert forall k :: 0 <= k < |steps[1..]| ==> steps[1..][k] == steps[k + 1];
      RunStaysOnWay(was, e, steps[1..], t);
    }
  }

  lemma AskingIsOnWay(was: System, t: Transition)
    requires t != DoConfigure && (t == DoDeactivate ==> was.b.mirror != Inactive)
    ensures OnWay(was, Next(was, Asking(t)), t)
  {
  }

  /** From any reachable state a request that nothing competes with converges, within two polls that find what
      they wait for.  If the node takes the transition, the request succeeds, mirror and node agree on the new
      state, and the timers are as they should be: one of each kind after an activation with a duration, and none
      otherwise.  If it does not, the request fails and nothing has changed. */
  lemma RequestConverges(node: NodeState, history: seq<Step>, t: Transition, steps: seq<Step>)
    requires t != DoConfigure
    requires var s := Run(Start(node), history);
             (t == DoDeactivate ==> s.b.mirror != Inactive) && Quiet(steps, |s.calls|, |s.messages|)
    ensures var s := Run(Start(node), history);
            var i := |s.calls|;
            var begun := Next(s, Asking(t));
            var e := Run(begun, steps);
            && i < |e.calls|
            && (ReadyPolls(begun, steps, i) >= 2 ==> e.calls[i] == Returned(Moves(s.node, t).Some?))
            && (e.calls[i] == Returned(true) ==>
                  Moves(s.node, t) == Some(e.node) && e.node == e.b.mirror && Concluded(t, s.b, e.b))
            && (e.calls[i] == Returned(false) ==> Moves(s.node, t).None? && e.node == s.node && e.b == s.b)
  {
    var s := Run(Start(node), history);
    RunKeepsInv(Start(node), history);
    AskingIsOnWay(s, t);
    RunStaysOnWay(s, Next(s, Asking(t)), steps, t);
  }

  /** A node that serves the message, and two polls. */
  function Prompt(s: System): seq<Step> {
    [Serve(|s.messages|), Resume(|s.calls|, true), Resume(|s.calls|, true)]
  }

  lemma PromptIsReady(s: System, t: Transition)
    requires t != DoConfigure && (t == DoDeactivate ==> s.b.mirror != Inactive)
    requires Moves(s.node, t).Some?
    ensures ReadyPolls(Next(s, Asking(t)), Prompt(s), |s.calls|) == 2
  {
    var i, steps := |s.calls|, Prompt(s);
    var a := Next(s, Asking(t));
    var b := Next(a, steps[0]);
    var c := Next(b, steps[1]);
    assert steps[1..] == [Resume(i, true), Resume(i, true)];
    assert steps[1..][1..] == [Resume(i, true)] && steps[1..][1..][1..] == [];
    assert Progress(a, steps[0], i) == 0;
    assert b.messages[|s.messages|].reply == Outcome(true);
    assert Progress(b, steps[1], i) == 1;
    assert Awaits(c.calls[i]).None?;
    assert Progress(c, steps[1], i) == 1;
    assert ReadyPolls(Next(c, steps[1]), [], i) == 0;
    assert ReadyPolls(c, [Resume(i, true)], i) == 1;
    assert ReadyPolls(b, [Resume(i, true), Resume(i, true)], i) == 2;
  }

  /** So a request that the node takes is done once the node has answered. */
  lemma PromptRequestSucceeds(node: NodeState, history: seq<Step>, t: Transition)
    requires t != DoConfigure
    requires var s := Run(Start(node), history);
             Moves(s.node, t).Some? && (t == DoDeactivate ==> s.b.mirror != Inactive)
    ensures var s := Run(Start(node), history);
            var e := Run(Next(s, Asking(t)), Prompt(s));
            && |s.calls| < |e.calls| && e.calls[|s.calls|] == Returned(true)
            && e.node == e.b.mirror && Moves(s.node, t) == Some(e.node) && Concluded(t, s.b, e.b)
  {
    var s := Run(Start(node), history);
    PromptIsReady(s, t);
    RequestConverges(node, history, t, Prompt(s));
  }

  /** Without the service a request fails at once, and a deactivation that the mirror calls unnecessary succeeds at
      once; neither sends anything to the node. */
  lemma RequestsThatSendNothing(s: System)
    requires NoOrphans(s.b)
    ensures forall step :: step == Activate(false) || step == Cleanup(false)
                           || (step == Deactivate(false) && s.b.mirror != Inactive) ==>
              Next(s, step) == s.(calls := s.calls + [Returned(false)])
    ensures forall up :: s.b.mirror == Inactive ==>
              var e := Next(s, Deactivate(up));
              && e == s.(calls := s.calls + [Returned(true)], b := e.b) && AllDead(e.b)
              && e.b == s.b.(tasks := e.b.tasks, timerTask := None, backupTask := None)
  {
    DroppedIsDead(s.b);
  }

  // ----- Timers that expire -----

  /** When the auto-stop timer of an active run expires, and the node answers, the node has stopped, the mirror says
      so, and no timer is left. */
  lemma AutoStopConverges(node: NodeState, history: seq<Step>, id: nat)
    requires var s := Run(Start(node), history);
             && s.node == Active && s.b.mirror != Inactive && id < |s.b.tasks|
             && s.b.tasks[id] == Task(AutoStop, Sleeping, false)
    ensures var s := Run(Start(node), history);
            var sent := Next(s, RunTask(id, true));
            var e := Next(Next(sent, Serve(|s.messages|)), RunTask(id, true));
            && e.node == Inactive && e.b.mirror == Inactive && AllDead(e.b) && e.calls == s.calls
  {
    RunKeepsInv(Start(node), history);
  }

  /** When the backup timer expires, the mirror says INACTIVE whatever the node is doing, the auto-stop timer is
      cancelled, and the node is not asked. */
  lemma BackupForcesTheMirror(node: NodeState, history: seq<Step>, id: nat, up: bool)
    requires var s := Run(Start(node), history);
             id < |s.b.tasks| && s.b.tasks[id] == Task(Backup, Sleeping, false)
    ensures var s := Run(Start(node), history);
            var e := Next(s, RunTask(id, up));
            && e.b.mirror == Inactive && e.node == s.node && e.messages == s.messages
            && e.b.timerTask.None? && forall k :: 0 <= k < |e.b.tasks| ==> !Live(e.b.tasks[k])
  {
    RunKeepsInv(Start(node), history);
  }
}
