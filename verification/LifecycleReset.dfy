/** A reset, or a configure request, that nothing competes with. */
module LifecycleReset {
  import opened Options
  import opened LifecycleBridge
  import opened LifecycleRuns

  /** Only call `i`, which does not give up, the messages from `base` on, and timer tasks get to run: no other
      request, and no older message is served late. */
  ghost predicate Undisturbed(steps: seq<Step>, i: nat, base: nat) {
    forall k :: 0 <= k < |steps| ==>
      steps[k].RunTask? || steps[k] == Resume(i, true) || (steps[k].Serve? && steps[k].message >= base)
  }

  /** What call `i` waits for is there. */
  predicate IsReady(s: System, i: nat)
    requires i < |s.calls|
  {
    Awaits(s.calls[i]).None? || ReplyTo(s, Awaits(s.calls[i]).value) != NoReply
  }

  /** 1 for a poll of call `i` that finds what it waits for. */
  function Progress(s: System, step: Step, i: nat): nat {
    if step == Resume(i, true) && i < |s.calls| && IsReady(s, i) then 1 else 0
  }

  /** Polls of call `i` that find what they wait for. */
  function ReadyPolls(s: System, steps: seq<Step>, i: nat): nat
    decreases |steps|
  {
    if steps == [] then 0
    else Progress(s, steps[0], i) + ReadyPolls(Next(s, steps[0]), steps[1..], i)
  }

  /** Ready polls that a reset's follow-up needs. */
  function FollowUp(scenario: Option<string>): nat {
    if scenario.Some? then 2 else 0
  }

  /** Ready polls the call still needs. */
  function Remaining(c: Call): nat {
    match c
    case RstSecondaries(x) => 4 + FollowUp(x)
    case RstGetState(x, _) => 3 + FollowUp(x)
    case RstDeactivate(x, _) => 2 + FollowUp(x)
    case RstCleanup(x, _) => 1 + FollowUp(x)
    case CfgInject(_) => 2
    case CfgChange(_, _) => 1
    case _ => 0
  }

  /** The latest message asks `ask`, and is either unanswered, with the node at `before`, or granted, with the
      node at `after`. */
  ghost predicate InTransit(s: System, m: nat, ask: Ask, before: NodeState, after: NodeState) {
    && m == |s.messages| - 1 && s.messages[m].ask == ask
    && (s.messages[m].reply == NoReply ==> s.node == before)
    && (s.messages[m].reply != NoReply ==> s.messages[m].reply == Outcome(true) && s.node == after)
  }

  /** What holds while a reset, or the configure of a scenario, is on its way: no timer is live, the messages
      from `base` on are answered up to the latest, and from the end of the reset on, mirror and node agree. */
  ghost predicate OnTrack(s: System, i: nat, goal: Option<string>, base: nat) {
    && i < |s.calls| && base <= |s.messages|
    && s.b.timerTask.None? && s.b.backupTask.None?
    && (forall k :: 0 <= k < |s.b.tasks| ==> !Live(s.b.tasks[k]))
    && (forall m :: base <= m < |s.messages| && Awaits(s.calls[i]) != Some(m) ==> s.messages[m].reply != NoReply)
    && (Awaits(s.calls[i]).Some? ==> Awaits(s.calls[i]).value >= base)
    && match s.calls[i]
       case RstSecondaries(x) => x == goal && s.node != Finalized
       case RstGetState(x, m) =>
         && x == goal && s.node != Finalized && m == |s.messages| - 1 && s.messages[m].ask == Query
         && (s.messages[m].reply != NoReply ==> s.messages[m].reply == Reported(s.node))
       case RstDeactivate(x, m) => x == goal && InTransit(s, m, Change(DoDeactivate), Active, Inactive)
       case RstCleanup(x, m) => x == goal && InTransit(s, m, Change(DoCleanup), Inactive, Unconfigured)
       case CfgInject(x) => Some(x) == goal && s.node == Unconfigured && s.b.mirror == Unconfigured
       case CfgChange(x, m) =>
         Some(x) == goal && s.b.mirror == Unconfigured && InTransit(s, m, Change(DoConfigure), Unconfigured, Inactive)
       case Returned(success) =>
         success && s.node == s.b.mirror
         && if goal.None? then s.node == Unconfigured else s.node == Inactive && s.b.scenario == goal
       case _ => false
  }

  lemma DeadTaskOnlyFinishes(s: System, id: nat, up: bool)
    requires id < |s.b.tasks| && !Live(s.b.tasks[id])
    ensures var e := TaskRan(s, id, up);
            && e.node == s.node && e.calls == s.calls && |e.messages| == |s.messages|
            && (forall m :: 0 <= m < |s.messages| ==>
                  e.messages[m].ask == s.messages[m].ask && e.messages[m].reply == s.messages[m].reply)
            && e.b == s.b.(tasks := e.b.tasks) && |e.b.tasks| == |s.b.tasks|
            && forall k :: 0 <= k < |s.b.tasks| ==> !Live(s.b.tasks[k]) ==> !Live(e.b.tasks[k])
  {
  }

  lemma ServeStaysOnTrack(s: System, m: nat, i: nat, goal: Option<string>, base: nat)
    requires OnTrack(s, i, goal, base) && m >= base
    ensures OnTrack(Served(s, m), i, goal, base)
  {
  }

  /** One ready poll forward, still on track; an early poll changes nothing. */
  ghost predicate Advances(s: System, e: System, i: nat, goal: Option<string>, base: nat)
    requires i < |s.calls|
  {
    && OnTrack(e, i, goal, base)
    && (IsReady(s, i) && Remaining(s.calls[i]) > 0 ==> Remaining(e.calls[i]) < Remaining(s.calls[i]))
    && (!IsReady(s, i) || Remaining(s.calls[i]) == 0 ==> e == s)
  }

  lemma ResetQueryAdvances(s: System, i: nat, goal: Option<string>, base: nat)
    requires OnTrack(s, i, goal, base) && (s.calls[i].RstSecondaries? || s.calls[i].RstGetState?)
    ensures Advances(s, Resumed(s, i, true), i, goal, base)
  {
  }

  lemma ResetChangeAdvances(s: System, i: nat, goal: Option<string>, base: nat)
    requires OnTrack(s, i, goal, base) && (s.calls[i].RstDeactivate? || s.calls[i].RstCleanup?)
    ensures Advances(s, Resumed(s, i, true), i, goal, base)
  {
  }

  lemma ConfigureAdvances(s: System, i: nat, goal: Option<string>, base: nat)
    requires OnTrack(s, i, goal, base) && (s.calls[i].CfgInject? || s.calls[i].CfgChange? || s.calls[i].Returned?)
    ensures Advances(s, Resumed(s, i, true), i, goal, base)
  {
  }

  lemma ResumeStaysOnTrack(s: System, i: nat, goal: Option<string>, base: nat)
    requires OnTrack(s, i, goal, base)
    ensures Advances(s, Resumed(s, i, true), i, goal, base)
  {
    match s.calls[i]
    case RstSecondaries(_) | RstGetState(_, _) => ResetQueryAdvances(s, i, goal, base);
    case RstDeactivate(_, _) | RstCleanup(_, _) => ResetChangeAdvances(s, i, goal, base);
    case _ => ConfigureAdvances(s, i, goal, base);
  }

  lemma TaskStaysOnTrack(s: System, task: nat, up: bool, i: nat, goal: Option<string>, base: nat)
    requires OnTrack(s, i, goal, base) && task < |s.b.tasks|
    ensures OnTrack(TaskRan(s, task, up), i, goal, base)
    ensures TaskRan(s, task, up).calls == s.calls
  {
    DeadTaskOnlyFinishes(s, task, up);
  }

  lemma StepStaysOnTrack(s: System, step: Step, i: nat, goal: Option<string>, base: nat)
    requires OnTrack(s, i, goal, base)
    requires step.RunTask? || step == Resume(i, true) || (step.Serve? && step.message >= base)
    ensures var e := Next(s, step);
            && OnTrack(e, i, goal, base)
            && (Remaining(s.calls[i]) == 0 ==> Remaining(e.calls[i]) == 0)
            && (Remaining(s.calls[i]) > 0 ==> Remaining(e.calls[i]) + Progress(s, step, i) <= Remaining(s.calls[i]))
  {
    if step.RunTask? && step.task < |s.b.tasks| {
      TaskStaysOnTrack(s, step.task, step.up, i, goal, base);
    } else if step.Serve? {
      ServeStaysOnTrack(s, step.message, i, goal, base);
    } else if step.Resume? {
      ResumeStaysOnTrack(s, i, goal, base);
    }
  }

  lemma {:induction false} RunStaysOnTrack(s: System, steps: seq<Step>, i: nat, goal: Option<string>, base: nat)
    requires OnTrack(s, i, goal, base) && Undisturbed(steps, i, base)
    ensures OnTrack(Run(s, steps), i, goal, base)
    ensures Remaining(Run(s, steps).calls[i]) + ReadyPolls(s, steps, i) <= Remaining(s.calls[i])
         || Remaining(Run(s, steps).calls[i]) == 0
    decreases |steps|
  {
    if steps != [] {
      StepStaysOnTrack(s, steps[0], i, goal, base);
      assert Undisturbed(steps[1..], i, base) by {
        forall k | 0 <= k < |steps[1..]|
          ensures steps[1..][k].RunTask? || steps[1..][k] == Resume(i, true)
                  || (steps[1..][k].Serve? && steps[1..][k].message >= base)
        {
          assert steps[1..][k] == steps[k + 1];
        }
      }
      RunStaysOnTrack(Next(s, steps[0]), steps[1..], i, goal, base);
    }
  }

  /** A responsive service: serving the message the call waits for makes its next poll ready. */
  lemma ServingMakesReady(s: System, i: nat, goal: Option<string>, base: nat)
    requires OnTrack(s, i, goal, base) && Awaits(s.calls[i]).Some?
    ensures var e := Served(s, Awaits(s.calls[i]).value);
            i < |e.calls| && IsReady(e, i)
  {
  }

  /** From any reachable state, whatever the mirror says and whatever timers are pending, a reset that nothing
      competes with converges: while it runs no timer can act, and after four polls that find what they wait
      for it has returned success, with mirror and node both unconfigured and both timer fields empty. */
  lemma ResetConverges(node: NodeState, history: seq<Step>, steps: seq<Step>)
    requires Run(Start(node), history).node != Finalized
    requires var s := Run(Start(node), history); Undisturbed(steps, |s.calls|, |s.messages|)
    ensures var s := Run(Start(node), history);
            var i := |s.calls|;
            var begun := Next(s, Reset);
            var e := Run(begun, steps);
            && i < |e.calls|
            && e.b.timerTask.None? && e.b.backupTask.None?
            && (forall k :: 0 <= k < |e.b.tasks| ==> !Live(e.b.tasks[k]))
            && (ReadyPolls(begun, steps, i) >= 4 ==> e.calls[i] == Returned(true))
            && (e.calls[i].Returned? ==>
                  e.calls[i].success && e.node == Unconfigured && e.b.mirror == Unconfigured)
  {
    var s := Run(Start(node), history);
    RunKeepsInv(Start(node), history);
    DroppedTimersAreDead(s.b);
    assert OnTrack(Next(s, Reset), |s.calls|, None, |s.messages|);
    RunStaysOnTrack(Next(s, Reset), steps, |s.calls|, None, |s.messages|);
    if ReadyPolls(Next(s, Reset), steps, |s.calls|) >= 4 {
      FinishedHasReturned(Run(Next(s, Reset), steps), |s.calls|, None, |s.messages|);
    }
  }

  lemma FinishedHasReturned(s: System, i: nat, goal: Option<string>, base: nat)
    requires OnTrack(s, i, goal, base) && Remaining(s.calls[i]) == 0
    ensures s.calls[i] == Returned(true)
  {
  }

  /** From any reachable state, whatever the mirror says and whatever timers are pending, a configure request
      that nothing competes with converges: while it runs no timer can act; once its reset is over, mirror
      and node are both unconfigured and both timer fields are empty; and after six polls that find what they
      wait for, mirror and node are both inactive with the new scenario. */
  lemma ConfigureConverges(node: NodeState, history: seq<Step>, id: string, duration: Option<real>, steps: seq<Step>)
    requires Run(Start(node), history).node != Finalized
    requires var s := Run(Start(node), history); Undisturbed(steps, |s.calls|, |s.messages|)
    ensures var s := Run(Start(node), history);
            var i := |s.calls|;
            var begun := Next(s, Configure(id, duration));
            var e := Run(begun, steps);
            && i < |e.calls|
            && e.b.timerTask.None? && e.b.backupTask.None?
            && (forall k :: 0 <= k < |e.b.tasks| ==> !Live(e.b.tasks[k]))
            && (e.calls[i] == CfgInject(id) ==> e.node == Unconfigured && e.b.mirror == Unconfigured)
            && (ReadyPolls(begun, steps, i) >= 6 ==> e.calls[i] == Returned(true))
            && (e.calls[i].Returned? ==>
                  e.calls[i].success && e.node == Inactive && e.b.mirror == Inactive && e.b.scenario == Some(id))
            && e.b.duration == duration
  {
    var s := Run(Start(node), history);
    RunKeepsInv(Start(node), history);
    DroppedTimersAreDead(s.b.(duration := duration));
    var begun := Next(s, Configure(id, duration));
    assert OnTrack(begun, |s.calls|, Some(id), |s.messages|);
    RunStaysOnTrack(begun, steps, |s.calls|, Some(id), |s.messages|);
    RunKeepsDuration(begun, steps);
  }

  lemma SectionKeepsDuration(s: System, i: nat, up: bool)
    requires i < |s.calls|
    ensures Resumed(s, i, up).b.duration == s.b.duration
  {
    CallTouches(s, i, up);
  }

  /** Only a configure request sets the duration. */
  lemma {:induction false} RunKeepsDuration(s: System, steps: seq<Step>)
    requires forall k :: 0 <= k < |steps| ==> !steps[k].Configure?
    ensures Run(s, steps).b.duration == s.b.duration
    decreases |steps|
  {
    if steps != [] {
      if steps[0].Resume? && steps[0].call < |s.calls| {
        SectionKeepsDuration(s, steps[0].call, steps[0].up);
      }
      assert forall k :: 0 <= k < |steps[1..]| ==> steps[1..][k] == steps[k + 1];
      RunKeepsDuration(Next(s, steps[0]), steps[1..]);
    }
  }
}
