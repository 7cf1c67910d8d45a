/** The orchestrator's lifecycle bridge: a mirror of the remote node's state, and two auto-stop timers.

    Every coroutine of the bridge is a chain of sections between awaits, and only sections are atomic.
    The class below has one method per section; each is tied to a function on `Bridge` values, from
    which `LifecycleRuns` builds all interleavings.
 */
module LifecycleBridge {
  import opened Options

  /** The mirror, and the remote node, only ever take these values. */
  datatype NodeState = Unconfigured | Inactive | Active | Finalized

  datatype Kind = AutoStop | Backup

  /** Where a timer task is suspended.  Only the auto-stop timer calls `deactivate`; it then waits for the
      answer to a message. */
  datatype Pc = Sleeping | Deactivating(message: nat) | Broadcasting | Finished

  /** `cancelled`: cancellation has been requested and is delivered at the task's next await. */
  datatype Task = Task(kind: Kind, pc: Pc, cancelled: bool)

  datatype Bridge = Bridge(
    mirror: NodeState, scenario: Option<string>, duration: Option<real>,
    timerTask: Option<nat>, backupTask: Option<nat>, tasks: seq<Task>)

  function Cancel(tasks: seq<Task>, held: Option<nat>): (r: seq<Task>)
    ensures |r| == |tasks|
  {
    if held.Some? && held.value < |tasks|
    then tasks[held.value := tasks[held.value].(cancelled := true)]
    else tasks
  }

  /** The block "if task: cancel, set to None", for both fields. */
  function TimersDropped(b: Bridge): Bridge {
    b.(tasks := Cancel(Cancel(b.tasks, b.timerTask), b.backupTask), timerTask := None, backupTask := None)
  }

  /** `configure` and `_reset_to_unconfigured` up to the first await. */
  function ConfigureBegun(b: Bridge, duration: Option<real>): Bridge {
    TimersDropped(b.(duration := duration))
  }

  /** `activate` after its broadcast. */
  function TimersStarted(b: Bridge): Bridge {
    var d := TimersDropped(b);
    if b.duration.None? then d
    else d.(tasks := d.tasks + [Task(AutoStop, Sleeping, false), Task(Backup, Sleeping, false)],
            timerTask := Some(|d.tasks|), backupTask := Some(|d.tasks| + 1))
  }

  /** `deactivate` after a successful transition. */
  function Deactivated(b: Bridge): Bridge {
    TimersDropped(b).(mirror := Inactive)
  }

  /** The backup timer's expiry. */
  function Forced(b: Bridge): Bridge {
    b.(mirror := Inactive, tasks := Cancel(b.tasks, b.timerTask), timerTask := None)
  }

  /** `cleanup` after a successful transition. */
  function CleanedUp(b: Bridge): Bridge {
    TimersDropped(b).(mirror := Unconfigured, scenario := None)
  }

  datatype Transition = DoConfigure | DoActivate | DoDeactivate | DoCleanup

  /** The remote node's own state machine; `None` is a rejected transition. */
  function Moves(n: NodeState, t: Transition): Option<NodeState> {
    match t
    case DoConfigure => if n == Unconfigured then Some(Inactive) else None
    case DoActivate => if n == Inactive then Some(Active) else None
    case DoDeactivate => if n == Active then Some(Inactive) else None
    case DoCleanup => if n == Inactive then Some(Unconfigured) else None
  }

  /** `_change_state`: the call succeeds when the service answers and the node accepts. */
  predicate Accepted(n: NodeState, t: Transition, available: bool) {
    available && Moves(n, t).Some?
  }

  function AfterChange(n: NodeState, t: Transition, available: bool): NodeState {
    if Accepted(n, t, available) then Moves(n, t).value else n
  }

  class LifecycleBridge {
    var mirror: NodeState
    var scenario: Option<string>
    var duration: Option<real>
    var timerTask: Option<nat>
    var backupTask: Option<nat>
    var tasks: seq<Task>

    function State(): Bridge
      reads this
    {
      Bridge(mirror, scenario, duration, timerTask, backupTask, tasks)
    }

    constructor ()
      ensures State() == Bridge(Unconfigured, None, None, None, None, [])
    {
      mirror, scenario, duration, timerTask, backupTask, tasks := Unconfigured, None, None, None, None, [];
    }

    method DropTimers()
      modifies this
      ensures State() == TimersDropped(old(State()))
    {
      if timerTask.Some? {
        tasks := Cancel(tasks, timerTask);
        timerTask := None;
      }
      if backupTask.Some? {
        tasks := Cancel(tasks, backupTask);
        backupTask := None;
      }
    }

    method BeginConfigure(newDuration: Option<real>)
      modifies this
      ensures State() == ConfigureBegun(old(State()), newDuration)
    {
      duration := newDuration;
      DropTimers();
      DropTimers();
    }

    method StartTimers()
      modifies this
      ensures State() == TimersStarted(old(State()))
    {
      DropTimers();
      if duration.Some? {
        timerTask := Some(|tasks|);
        tasks := tasks + [Task(AutoStop, Sleeping, false)];
        backupTask := Some(|tasks|);
        tasks := tasks + [Task(Backup, Sleeping, false)];
      }
    }

    method FinishDeactivate()
      modifies this
      ensures State() == Deactivated(old(State()))
    {
      DropTimers();
      mirror := Inactive;
    }

    method ForceInactive()
      modifies this
      ensures State() == Forced(old(State()))
    {
      mirror := Inactive;
      if timerTask.Some? {
        tasks := Cancel(tasks, timerTask);
        timerTask := None;
      }
    }

    method FinishCleanup()
      modifies this
      ensures State() == CleanedUp(old(State()))
    {
      DropTimers();
      mirror := Unconfigured;
      scenario := None;
    }

    /** `_reset_to_unconfigured` without interleaving.  The three flags say whether the service answers
        each of its calls; `node` is the remote state. */
    method ResetToUnconfigured(node: NodeState, getAnswers: bool, deactivateAnswers: bool, cleanupAnswers: bool)
      returns (ok: bool, node': NodeState)
      modifies this
      ensures (State(), node', ok)
           == WasReset(old(State()), node, getAnswers, deactivateAnswers, cleanupAnswers)
    {
      DropTimers();
      node' := node;
      if !getAnswers || node == Unconfigured || node == Finalized {
        mirror := Unconfigured;
        return true, node';
      }
      if node == Active {
        ok := Accepted(node', DoDeactivate, deactivateAnswers);
        node' := AfterChange(node', DoDeactivate, deactivateAnswers);
        if !ok {
          return false, node';
        }
        mirror := Inactive;
      }
      ok := Accepted(node', DoCleanup, cleanupAnswers);
      node' := AfterChange(node', DoCleanup, cleanupAnswers);
      if ok {
        mirror := Unconfigured;
      }
    }

    /** `deactivate` without interleaving. */
    method Deactivate(node: NodeState, answers: bool) returns (ok: bool, node': NodeState)
      modifies this
      ensures (State(), node', ok) == WasDeactivated(old(State()), node, answers)
    {
      if mirror == Inactive {
        DropTimers();
        return true, node;
      }
      ok := Accepted(node, DoDeactivate, answers);
      node' := AfterChange(node, DoDeactivate, answers);
      if ok {
        FinishDeactivate();
      }
    }
  }

  function WasReset(b: Bridge, node: NodeState, getAnswers: bool, deactivateAnswers: bool, cleanupAnswers: bool):
    (Bridge, NodeState, bool)
  {
    var d := TimersDropped(b);
    if !getAnswers || node == Unconfigured || node == Finalized then (d.(mirror := Unconfigured), node, true)
    else if node == Active && !deactivateAnswers then (d, Active, false)
    else if !cleanupAnswers then (if node == Active then d.(mirror := Inactive) else d, Inactive, false)
    else (d.(mirror := Unconfigured), Unconfigured, true)
  }

  function WasDeactivated(b: Bridge, node: NodeState, answers: bool): (Bridge, NodeState, bool) {
    if b.mirror == Inactive then (TimersDropped(b), node, true)
    else if node == Active && answers then (Deactivated(b), Inactive, true)
    else (b, node, false)
  }

  /** A reset succeeds exactly when the state query is not answered, there is nothing to do, or the node takes
      every transition it needs.  A reported success has reached the node exactly when the query was answered
      (or there was nothing to do) and the node is not finalized.  After a failure mirror and node are as far as
      the reset got. */
  lemma ResetIsHonestIff(b: Bridge, node: NodeState, getAnswers: bool, deactivateAnswers: bool, cleanupAnswers: bool)
    ensures var r := WasReset(b, node, getAnswers, deactivateAnswers, cleanupAnswers);
            && (r.2 <==> !getAnswers || node == Unconfigured || node == Finalized
                         || (cleanupAnswers && (node == Active ==> deactivateAnswers)))
            && (r.2 ==> r.0.mirror == Unconfigured)
            && (r.2 ==> (r.1 == Unconfigured <==> (getAnswers || node == Unconfigured) && node != Finalized))
            && (!r.2 && node == Active && deactivateAnswers ==> r.0.mirror == Inactive && r.1 == Inactive)
            && (!r.2 && (node == Inactive || !deactivateAnswers) ==> r.0.mirror == b.mirror && r.1 == node)
            && r.0.timerTask.None? && r.0.backupTask.None?
            && r.0.scenario == b.scenario && r.0.duration == b.duration
  {
  }

  /** `deactivate` succeeds exactly when the mirror says INACTIVE or the node takes the transition, and answers from
      the mirror: a reported success leaves the node running exactly when the mirror said INACTIVE while the node
      was ACTIVE. */
  lemma DeactivateTrustsTheMirror(b: Bridge, node: NodeState, answers: bool)
    ensures var r := WasDeactivated(b, node, answers);
            && (r.2 <==> b.mirror == Inactive || (node == Active && answers))
            && (r.2 ==> r.0.mirror == Inactive && r.0.timerTask.None? && r.0.backupTask.None?)
            && (r.2 ==> (r.1 == Active <==> b.mirror == Inactive && node == Active))
            && (!r.2 ==> r.0 == b && r.1 == node)
  {
  }
}
