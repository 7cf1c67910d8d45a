/** All interleavings of lifecycle requests, timer tasks and the remote node.

    A change of state is two events: the node serves the message in its own process, and the coroutine reads
    the answer when it next polls.  Between the two, and also after the caller has given up, anything else
    can happen.
 */
module LifecycleRuns {
  import opened Options
  import opened LifecycleBridge

  datatype Ask = Query | Change(t: Transition)

  datatype Reply = NoReply | Reported(state: NodeState) | Outcome(accepted: bool)

  datatype Caller = ByCall(i: nat) | ByTask(j: nat)

  /** `open`: the caller is still waiting for it. */
  datatype Message = Message(ask: Ask, caller: Caller, reply: Reply, open: bool)

  /** Where a request coroutine is suspended: what it awaits, and the message if it awaits an answer.  A reset
      has a scenario to configure afterwards, or none. */
  datatype Call =
    | RstSecondaries(goal: Option<string>)
    | RstGetState(goal: Option<string>, message: nat)
    | RstDeactivate(goal: Option<string>, message: nat)
    | RstCleanup(goal: Option<string>, message: nat)
    | CfgInject(scenario: string)
    | CfgChange(scenario: string, message: nat)
    | ActChange(message: nat)
    | ActBroadcast
    | DeaChange(message: nat)
    | DeaBroadcast
    | CleChange(message: nat)
    | CleBroadcast
    | Returned(success: bool)

  /** `timerBroadcasts` counts the deactivate broadcasts that timer tasks have carried out, `forced` the
      expiries of backup timers. */
  datatype System = System(
    b: Bridge, node: NodeState, messages: seq<Message>, calls: seq<Call>, timerBroadcasts: nat, forced: nat)

  /** `up`: the service is there, so that an unanswered caller goes on waiting, and a new message is sent;
      otherwise the caller gives up, or fails without sending.  `Serve` is a step of the remote node. */
  datatype Step =
    | Configure(scenario: string, duration: Option<real>)
    | Reset
    | Activate(up: bool)
    | Deactivate(up: bool)
    | Cleanup(up: bool)
    | Serve(message: nat)
    | Resume(call: nat, up: bool)
    | RunTask(task: nat, up: bool)

  // ----- Messages -----

  function ReplyTo(s: System, m: nat): Reply {
    if m < |s.messages| then s.messages[m].reply else NoReply
  }

  /** The poll is over: an answer is there, or the caller gives up. */
  predicate Settled(s: System, m: nat, up: bool) {
    ReplyTo(s, m) != NoReply || !up
  }

  predicate Granted(s: System, m: nat) {
    ReplyTo(s, m) == Outcome(true)
  }

  function Close(s: System, m: nat): System {
    if m < |s.messages| then s.(messages := s.messages[m := s.messages[m].(open := false)]) else s
  }

  function Post(s: System, ask: Ask, caller: Caller): System {
    s.(messages := s.messages + [Message(ask, caller, NoReply, true)])
  }

  function At(s: System, i: nat, call: Call): System
    requires i < |s.calls|
  {
    s.(calls := s.calls[i := call])
  }

  /** The node answers in its own time. */
  function Served(s: System, m: nat): System {
    if m >= |s.messages| || s.messages[m].reply != NoReply then s
    else
      match s.messages[m].ask
      case Query => s.(messages := s.messages[m := s.messages[m].(reply := Reported(s.node))])
      case Change(t) =>
        s.(node := AfterChange(s.node, t, true),
           messages := s.messages[m := s.messages[m].(reply := Outcome(Moves(s.node, t).Some?))])
  }

  // ----- Request coroutines and timer tasks -----

  function Awaits(c: Call): Option<nat> {
    match c
    case RstGetState(_, m) => Some(m)
    case RstDeactivate(_, m) => Some(m)
    case RstCleanup(_, m) => Some(m)
    case CfgChange(_, m) => Some(m)
    case ActChange(m) => Some(m)
    case DeaChange(m) => Some(m)
    case CleChange(m) => Some(m)
    case _ => None
  }

  /** What follows a successful reset. */
  function AfterReset(scenario: Option<string>): Call {
    if scenario.Some? then CfgInject(scenario.value) else Returned(true)
  }

  function Resumed(s: System, i: nat, up: bool): System
    requires i < |s.calls|
  {
    var next := |s.messages|;
    match s.calls[i]
    case RstSecondaries(id) =>
      if up then Post(At(s, i, RstGetState(id, next)), Query, ByCall(i))
      else At(s, i, AfterReset(id)).(b := s.b.(mirror := Unconfigured))
    case RstGetState(id, m) =>
      if !Settled(s, m, up) then s
      else if ReplyTo(s, m) in {Reported(Active), Reported(Inactive)} && !up then At(Close(s, m), i, Returned(false))
      else if ReplyTo(s, m) == Reported(Active) then
        Post(At(Close(s, m), i, RstDeactivate(id, next)), Change(DoDeactivate), ByCall(i))
      else if ReplyTo(s, m) == Reported(Inactive) then
        Post(At(Close(s, m), i, RstCleanup(id, next)), Change(DoCleanup), ByCall(i))
      else At(Close(s, m), i, AfterReset(id)).(b := s.b.(mirror := Unconfigured))
    case RstDeactivate(id, m) =>
      if !Settled(s, m, up) then s
      else if Granted(s, m) && up then
        Post(At(Close(s, m), i, RstCleanup(id, next)).(b := s.b.(mirror := Inactive)), Change(DoCleanup), ByCall(i))
      else if Granted(s, m) then At(Close(s, m), i, Returned(false)).(b := s.b.(mirror := Inactive))
      else At(Close(s, m), i, Returned(false))
    case RstCleanup(id, m) =>
      if !Settled(s, m, up) then s
      else if Granted(s, m) then At(Close(s, m), i, AfterReset(id)).(b := s.b.(mirror := Unconfigured))
      else At(Close(s, m), i, Returned(false))
    case CfgInject(id) =>
      if up then Post(At(s, i, CfgChange(id, next)), Change(DoConfigure), ByCall(i))
      else At(s, i, Returned(false))
    case CfgChange(id, m) =>
      if !Settled(s, m, up) then s
      else if Granted(s, m) then
        At(Close(s, m), i, Returned(true)).(b := s.b.(mirror := Inactive, scenario := Some(id)))
      else At(Close(s, m), i, Returned(false))
    case ActChange(m) =>
      if !Settled(s, m, up) then s
      else if Granted(s, m) then At(Close(s, m), i, ActBroadcast).(b := s.b.(mirror := Active))
      else At(Close(s, m), i, Returned(false))
    case ActBroadcast => At(s, i, Returned(true)).(b := TimersStarted(s.b))
    case DeaChange(m) =>
      if !Settled(s, m, up) then s
      else if Granted(s, m) then At(Close(s, m), i, DeaBroadcast).(b := Deactivated(s.b))
      else At(Close(s, m), i, Returned(false))
    case CleChange(m) =>
      if !Settled(s, m, up) then s
      else if Granted(s, m) then At(Close(s, m), i, CleBroadcast).(b := CleanedUp(s.b))
      else At(Close(s, m), i, Returned(false))
    case DeaBroadcast | CleBroadcast => At(s, i, Returned(true))
    case Returned(_) => s
  }

  function WithPc(b: Bridge, id: nat, pc: Pc): Bridge
    requires id < |b.tasks|
  {
    b.(tasks := b.tasks[id := b.tasks[id].(pc := pc)])
  }

  /** One section of a timer task.  A requested cancellation is delivered here and ends the task; its message
      stays with the node. */
  function TaskRan(s: System, id: nat, up: bool): System
    requires id < |s.b.tasks|
  {
    var t := s.b.tasks[id];
    match t.pc
    case Finished => s
    case Sleeping =>
      if t.cancelled then s.(b := WithPc(s.b, id, Finished))
      else if t.kind == Backup then s.(b := WithPc(Forced(s.b), id, Finished), forced := s.forced + 1)
      else if s.b.mirror == Inactive then s.(b := WithPc(TimersDropped(s.b), id, Finished))
      else if !up then s.(b := WithPc(s.b, id, Finished))
      else Post(s.(b := WithPc(s.b, id, Deactivating(|s.messages|))), Change(DoDeactivate), ByTask(id))
    case Deactivating(m) =>
      if t.cancelled then Close(s, m).(b := WithPc(s.b, id, Finished))
      else if !Settled(s, m, up) then s
      else if Granted(s, m) then Close(s, m).(b := WithPc(Deactivated(s.b), id, Broadcasting))
      else Close(s, m).(b := WithPc(s.b, id, Finished))
    case Broadcasting =>
      if t.cancelled then s.(b := WithPc(s.b, id, Finished))
      else s.(b := WithPc(s.b, id, Finished), timerBroadcasts := s.timerBroadcasts + 1)
  }

  /** A new request that starts by sending a change of state. */
  function Requested(s: System, t: Transition, call: Call, up: bool): System {
    if up then Post(s.(calls := s.calls + [call]), Change(t), ByCall(|s.calls|))
    else s.(calls := s.calls + [Returned(false)])
  }

  function Next(s: System, step: Step): System {
    match step
    case Configure(id, duration) =>
      s.(b := ConfigureBegun(s.b, duration), calls := s.calls + [RstSecondaries(Some(id))])
    case Reset => s.(b := TimersDropped(s.b), calls := s.calls + [RstSecondaries(None)])
    case Activate(up) => Requested(s, DoActivate, ActChange(|s.messages|), up)
    case Deactivate(up) =>
      if s.b.mirror == Inactive then s.(b := TimersDropped(s.b), calls := s.calls + [Returned(true)])
      else Requested(s, DoDeactivate, DeaChange(|s.messages|), up)
    case Cleanup(up) => Requested(s, DoCleanup, CleChange(|s.messages|), up)
    case Serve(m) => Served(s, m)
    case Resume(i, up) => if i < |s.calls| then Resumed(s, i, up) else s
    case RunTask(id, up) => if id < |s.b.tasks| then TaskRan(s, id, up) else s
  }

  function Run(s: System, steps: seq<Step>): System
    decreases |steps|
  {
    if steps == [] then s else Run(Next(s, steps[0]), steps[1..])
  }

  function Start(node: NodeState): System {
    System(Bridge(Unconfigured, None, None, None, None, []), node, [], [], 0, 0)
  }

  // ----- No orphan timers -----

  predicate Live(t: Task) {
    t.pc != Finished && !t.cancelled
  }

  function HeldIn(b: Bridge, kind: Kind): Option<nat> {
    if kind == AutoStop then b.timerTask else b.backupTask
  }

  /** Every timer that can still act is the one held in its field. */
  ghost predicate NoOrphans(b: Bridge) {
    forall id :: 0 <= id < |b.tasks| && Live(b.tasks[id]) ==> HeldIn(b, b.tasks[id].kind) == Some(id)
  }

  ghost predicate TasksOk(b: Bridge) {
    && NoOrphans(b)
    && forall id :: 0 <= id < |b.tasks| ==>
         var t := b.tasks[id];
         && (t.pc == Broadcasting ==> t.cancelled)
         && (t.kind == Backup ==> t.pc == Sleeping || t.pc == Finished)
  }

  ghost predicate Inv(s: System) {
    TasksOk(s.b) && s.timerBroadcasts == 0
  }

  /** After the two fields are cleared no timer is live. */
  lemma DroppedTimersAreDead(b: Bridge)
    requires NoOrphans(b)
    ensures forall id :: 0 <= id < |b.tasks| ==> !Live(TimersDropped(b).tasks[id])
  {
  }

  lemma DroppingKeepsTasksOk(b: Bridge)
    requires TasksOk(b)
    ensures TasksOk(TimersDropped(b))
  {
  }

  lemma StartingKeepsTasksOk(b: Bridge)
    requires TasksOk(b)
    ensures TasksOk(TimersStarted(b))
  {
  }

  /** Neither the mirror nor the scenario id matters to the timers. */
  lemma SameTasks(b: Bridge, b': Bridge)
    requires TasksOk(b) && b'.tasks == b.tasks && b'.timerTask == b.timerTask && b'.backupTask == b.backupTask
    ensures TasksOk(b')
  {
  }

  lemma TaskKeepsInv(s: System, id: nat, up: bool)
    requires Inv(s) && id < |s.b.tasks|
    ensures Inv(TaskRan(s, id, up))
  {
  }

  /** What a section may do to the bridge as far as the tasks are concerned. */
  ghost predicate TouchesAs(b: Bridge, e: Bridge) {
    || e == TimersStarted(b)
    || (e.tasks == b.tasks && e.timerTask == b.timerTask && e.backupTask == b.backupTask && e.duration == b.duration)
    || e == Deactivated(b)
    || e == CleanedUp(b)
  }

  /** What a request section does to the bridge. */
  lemma CallTouches(s: System, i: nat, up: bool)
    requires i < |s.calls|
    ensures var e := Resumed(s, i, up);
            && e.timerBroadcasts == s.timerBroadcasts && e.forced == s.forced && e.node == s.node
            && TouchesAs(s.b, e.b)
  {
  }

  lemma CallKeepsInv(s: System, i: nat, up: bool)
    requires Inv(s) && i < |s.calls|
    ensures Inv(Resumed(s, i, up))
  {
    var e := Resumed(s, i, up);
    CallTouches(s, i, up);
    StartingKeepsTasksOk(s.b);
    DroppingKeepsTasksOk(s.b);
    if e.b.tasks == s.b.tasks && e.b.timerTask == s.b.timerTask && e.b.backupTask == s.b.backupTask {
      SameTasks(s.b, e.b);
    } else if e.b != TimersStarted(s.b) {
      SameTasks(TimersDropped(s.b), e.b);
    }
  }

  lemma StepKeepsInv(s: System, step: Step)
    requires Inv(s)
    ensures Inv(Next(s, step))
  {
    match step
    case Resume(i, up) =>
      if i < |s.calls| {
        CallKeepsInv(s, i, up);
      }
    case RunTask(id, up) =>
      if id < |s.b.tasks| {
        TaskKeepsInv(s, id, up);
      }
    case Configure(_, duration) => DroppingKeepsTasksOk(s.b.(duration := duration));
    case _ => DroppingKeepsTasksOk(s.b);
  }

  lemma {:induction false} RunKeepsInv(s: System, steps: seq<Step>)
    requires Inv(s)
    ensures Inv(Run(s, steps))
    decreases |steps|
  {
    if steps != [] {
      StepKeepsInv(s, steps[0]);
      RunKeepsInv(Next(s, steps[0]), steps[1..]);
    }
  }

  /** Under every interleaving each uncancelled, unfinished timer task is the one in its field; so there
      is at most one of each kind. */
  lemma NoOrphanTimers(node: NodeState, steps: seq<Step>)
    ensures NoOrphans(Run(Start(node), steps).b)
    ensures var tasks := Run(Start(node), steps).b.tasks;
            forall i, j | 0 <= i < |tasks| && 0 <= j < |tasks| && Live(tasks[i]) && Live(tasks[j]) ::
              tasks[i].kind == tasks[j].kind ==> i == j
  {
    RunKeepsInv(Start(node), steps);
  }

  /** The auto-stop task cancels itself before its broadcast, so under no interleaving does a timer ever
      broadcast the deactivation to the secondary nodes. */
  lemma AutoStopNeverBroadcasts(node: NodeState, steps: seq<Step>)
    ensures Run(Start(node), steps).timerBroadcasts == 0
  {
    RunKeepsInv(Start(node), steps);
  }
}
