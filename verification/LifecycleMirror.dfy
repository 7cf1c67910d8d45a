/** When the mirror says INACTIVE while the node is ACTIVE. */
module LifecycleMirror {
  import opened Options
  import opened LifecycleBridge
  import opened LifecycleRuns

  /** The mirror says INACTIVE of an active node. */
  predicate Divided(s: System) {
    s.b.mirror == Inactive && s.node == Active
  }

  predicate IsOpenChange(msg: Message) {
    msg.open && msg.ask.Change?
  }

  /** Change-of-state calls do not overlap, and none is left with the node by a caller that has gone. */
  ghost predicate Orderly(s: System) {
    && (forall m, n :: 0 <= m < n < |s.messages| ==>
          !(IsOpenChange(s.messages[m]) && IsOpenChange(s.messages[n])))
    && (forall m :: 0 <= m < |s.messages| && s.messages[m].ask.Change? && s.messages[m].reply == NoReply ==>
          s.messages[m].open)
  }

  ghost predicate OrderlyRun(s: System, steps: seq<Step>)
    decreases |steps|
  {
    Orderly(s) && (steps == [] || OrderlyRun(Next(s, steps[0]), steps[1..]))
  }

  /** No caller has yet to read that its change of state was accepted. */
  ghost predicate AllRead(s: System) {
    forall m :: 0 <= m < |s.messages| && IsOpenChange(s.messages[m]) ==> s.messages[m].reply != Outcome(true)
  }

  function AskOf(c: Call): Ask {
    match c
    case RstDeactivate(_, _) => Change(DoDeactivate)
    case RstCleanup(_, _) => Change(DoCleanup)
    case CfgChange(_, _) => Change(DoConfigure)
    case ActChange(_) => Change(DoActivate)
    case DeaChange(_) => Change(DoDeactivate)
    case CleChange(_) => Change(DoCleanup)
    case _ => Query
  }

  /** Message `m` is open, for this caller, and asks `ask`. */
  ghost predicate IsHeld(s: System, m: nat, caller: Caller, ask: Ask) {
    m < |s.messages| && s.messages[m].open && s.messages[m].caller == caller && s.messages[m].ask == ask
  }

  ghost predicate CallsLinked(s: System) {
    forall i :: 0 <= i < |s.calls| && Awaits(s.calls[i]).Some? ==>
      IsHeld(s, Awaits(s.calls[i]).value, ByCall(i), AskOf(s.calls[i]))
  }

  ghost predicate TasksLinked(s: System) {
    forall j :: 0 <= j < |s.b.tasks| && s.b.tasks[j].pc.Deactivating? ==>
      IsHeld(s, s.b.tasks[j].pc.message, ByTask(j), Change(DoDeactivate))
  }

  /** Every waiting caller has its own open message. */
  ghost predicate Linked(s: System) {
    CallsLinked(s) && TasksLinked(s)
  }

  function Target(t: Transition): NodeState {
    match t
    case DoConfigure | DoDeactivate => Inactive
    case DoActivate => Active
    case DoCleanup => Unconfigured
  }

  /** An accepted change that is still unread is where the node is; otherwise only the backup timer divides. */
  ghost predicate Honest(s: System) {
    && (forall m :: 0 <= m < |s.messages| && IsOpenChange(s.messages[m]) && s.messages[m].reply == Outcome(true) ==>
          s.node == Target(s.messages[m].ask.t))
    && (AllRead(s) && Divided(s) ==> s.forced > 0)
  }

  lemma ServeKeepsLinked(s: System, m: nat)
    requires Linked(s)
    ensures Linked(Served(s, m))
  {
  }

  /** All messages but `m` are as they were; new ones may have been added. */
  ghost predicate SameMessagesBut(s: System, e: System, m: Option<nat>) {
    |s.messages| <= |e.messages| && forall n :: 0 <= n < |s.messages| && m != Some(n) ==> e.messages[n] == s.messages[n]
  }

  lemma OtherCallsStay(s: System, i: nat, up: bool)
    requires i < |s.calls|
    ensures var e := Resumed(s, i, up);
            |e.calls| == |s.calls| && forall k :: 0 <= k < |s.calls| && k != i ==> e.calls[k] == s.calls[k]
  {
  }

  lemma OtherMessagesStay(s: System, i: nat, up: bool)
    requires i < |s.calls|
    ensures SameMessagesBut(s, Resumed(s, i, up), Awaits(s.calls[i]))
  {
  }

  /** The sections that may send the next message. */
  predicate MaySend(c: Call) {
    c.RstSecondaries? || c.RstGetState? || c.RstDeactivate? || c.CfgInject?
  }

  lemma SentMessageIsHeld(s: System, i: nat, up: bool)
    requires i < |s.calls| && MaySend(s.calls[i])
    ensures var e := Resumed(s, i, up);
            i < |e.calls| && (e == s || Awaits(e.calls[i]).None?
                              || IsHeld(e, Awaits(e.calls[i]).value, ByCall(i), AskOf(e.calls[i])))
  {
  }

  lemma LastResetSectionSendsNothing(s: System, i: nat, up: bool)
    requires i < |s.calls| && (s.calls[i].RstCleanup? || s.calls[i].CfgChange?)
    ensures var e := Resumed(s, i, up);
            i < |e.calls| && (e == s || Awaits(e.calls[i]).None?)
  {
  }

  lemma LastSectionSendsNothing(s: System, i: nat, up: bool)
    requires i < |s.calls| && !MaySend(s.calls[i])
    ensures var e := Resumed(s, i, up);
            i < |e.calls| && (e == s || Awaits(e.calls[i]).None?)
  {
    if s.calls[i].RstCleanup? || s.calls[i].CfgChange? {
      LastResetSectionSendsNothing(s, i, up);
    } else if s.calls[i].ActChange? || s.calls[i].ActBroadcast? {
      assert |Resumed(s, i, up).calls| == |s.calls|;
    }
  }

  lemma NextMessageIsHeld(s: System, i: nat, up: bool)
    requires i < |s.calls|
    ensures var e := Resumed(s, i, up);
            i < |e.calls| && (e == s || Awaits(e.calls[i]).None?
                              || IsHeld(e, Awaits(e.calls[i]).value, ByCall(i), AskOf(e.calls[i])))
  {
    if MaySend(s.calls[i]) {
      SentMessageIsHeld(s, i, up);
    } else {
      LastSectionSendsNothing(s, i, up);
    }
  }

  ghost predicate KeepsPcs(b: Bridge, e: Bridge) {
    && |b.tasks| <= |e.tasks|
    && (forall j :: 0 <= j < |b.tasks| ==> e.tasks[j].pc == b.tasks[j].pc)
    && (forall j :: |b.tasks| <= j < |e.tasks| ==> e.tasks[j].pc == Sleeping)
  }

  lemma TouchingKeepsPcs(b: Bridge, e: Bridge)
    requires TouchesAs(b, e)
    ensures KeepsPcs(b, e)
  {
  }

  lemma FramedLinked(s: System, e: System, i: nat)
    requires Linked(s) && i < |s.calls| == |e.calls|
    requires forall k :: 0 <= k < |s.calls| && k != i ==> e.calls[k] == s.calls[k]
    requires SameMessagesBut(s, e, Awaits(s.calls[i]))
    requires Awaits(e.calls[i]).Some? ==>
               IsHeld(e, Awaits(e.calls[i]).value, ByCall(i), AskOf(e.calls[i]))
    requires KeepsPcs(s.b, e.b)
    ensures Linked(e)
  {
  }

  lemma CallKeepsLinked(s: System, i: nat, up: bool)
    requires Linked(s) && i < |s.calls|
    ensures Linked(Resumed(s, i, up))
  {
    OtherCallsStay(s, i, up);
    OtherMessagesStay(s, i, up);
    NextMessageIsHeld(s, i, up);
    CallTouches(s, i, up);
    TouchingKeepsPcs(s.b, Resumed(s, i, up).b);
    FramedLinked(s, Resumed(s, i, up), i);
  }

  lemma TaskKeepsCallsLinked(s: System, id: nat, up: bool)
    requires Linked(s) && id < |s.b.tasks|
    ensures CallsLinked(TaskRan(s, id, up))
  {
  }

  lemma WaitingTaskKeepsTasksLinked(s: System, id: nat, up: bool)
    requires TasksLinked(s) && id < |s.b.tasks| && s.b.tasks[id].pc.Deactivating?
    ensures TasksLinked(TaskRan(s, id, up))
  {
  }

  lemma TaskKeepsTasksLinked(s: System, id: nat, up: bool)
    requires TasksLinked(s) && id < |s.b.tasks|
    ensures TasksLinked(TaskRan(s, id, up))
  {
    if s.b.tasks[id].pc.Deactivating? {
      WaitingTaskKeepsTasksLinked(s, id, up);
    }
  }

  lemma RequestKeepsLinked(s: System, step: Step)
    requires Linked(s) && (step.Configure? || step.Reset? || step.Activate? || step.Deactivate? || step.Cleanup?)
    ensures Linked(Next(s, step))
  {
  }

  lemma StepKeepsLinked(s: System, step: Step)
    requires Linked(s)
    ensures Linked(Next(s, step))
  {
    match step
    case Serve(m) => ServeKeepsLinked(s, m);
    case Resume(i, up) =>
      if i < |s.calls| {
        CallKeepsLinked(s, i, up);
      }
    case RunTask(id, up) =>
      if id < |s.b.tasks| {
        TaskKeepsCallsLinked(s, id, up);
        TaskKeepsTasksLinked(s, id, up);
      }
    case _ => RequestKeepsLinked(s, step);
  }

  /** Unless an accepted change was read, what is unread is unread still. */
  lemma AllReadBack(s: System, e: System, m: Option<nat>)
    requires SameMessagesBut(s, e, m)
    requires m.Some? && m.value < |s.messages| ==> s.messages[m.value].reply != Outcome(true)
    ensures AllRead(e) ==> AllRead(s)
  {
    if AllRead(e) {
      forall n | 0 <= n < |s.messages| && IsOpenChange(s.messages[n]) ensures s.messages[n].reply != Outcome(true) {
        assert m != Some(n) ==> e.messages[n] == s.messages[n];
      }
    }
  }

  lemma ServeKeepsHonest(s: System, m: nat)
    requires Honest(s) && Orderly(s)
    ensures Honest(Served(s, m))
  {
    var e := Served(s, m);
    if m < |s.messages| && s.messages[m].reply == NoReply {
      AllReadBack(s, e, Some(m));
      if e.node != s.node {
        assert IsOpenChange(e.messages[m]) && e.messages[m].reply == Outcome(true);
      }
    }
  }

  /** A section of a call divides nothing: what it accepted is where the node is. */
  lemma CallMirror(s: System, i: nat, up: bool)
    requires i < |s.calls|
    requires Awaits(s.calls[i]).Some? && Granted(s, Awaits(s.calls[i]).value) && AskOf(s.calls[i]).Change? ==>
               s.node == Target(AskOf(s.calls[i]).t)
    ensures var e := Resumed(s, i, up);
            e.node == s.node && e.forced == s.forced
            && (Divided(e) ==> Divided(s) && !(Awaits(s.calls[i]).Some? && Granted(s, Awaits(s.calls[i]).value)))
  {
  }

  lemma OpenChangesBack(s: System, e: System, m: Option<nat>)
    requires Honest(s) && SameMessagesBut(s, e, m) && e.node == s.node
    requires m.Some? && m.value < |s.messages| && e.messages != s.messages ==> !e.messages[m.value].open
    requires forall n :: |s.messages| <= n < |e.messages| ==> e.messages[n].reply == NoReply
    ensures forall n :: 0 <= n < |e.messages| && IsOpenChange(e.messages[n]) && e.messages[n].reply == Outcome(true) ==>
              e.node == Target(e.messages[n].ask.t)
  {
  }

  lemma CallMessages(s: System, i: nat, up: bool)
    requires i < |s.calls|
    ensures var e, m := Resumed(s, i, up), Awaits(s.calls[i]);
            && (m.Some? && m.value < |s.messages| && e.messages != s.messages ==> !e.messages[m.value].open)
            && (forall n :: |s.messages| <= n < |e.messages| ==> e.messages[n].reply == NoReply)
  {
  }

  lemma CallKeepsHonest(s: System, i: nat, up: bool)
    requires Linked(s) && Honest(s) && i < |s.calls|
    ensures Honest(Resumed(s, i, up))
  {
    var e, m := Resumed(s, i, up), Awaits(s.calls[i]);
    CallMirror(s, i, up);
    OtherMessagesStay(s, i, up);
    CallMessages(s, i, up);
    OpenChangesBack(s, e, m);
    if Divided(e) {
      AllReadBack(s, e, m);
    }
  }

  lemma TaskKeepsHonest(s: System, id: nat, up: bool)
    requires Linked(s) && Honest(s) && id < |s.b.tasks|
    ensures Honest(TaskRan(s, id, up))
  {
    var e, pc := TaskRan(s, id, up), s.b.tasks[id].pc;
    var m := if pc.Deactivating? then Some(pc.message) else None;
    if !(pc.Deactivating? && Granted(s, pc.message)) {
      AllReadBack(s, e, m);
    }
  }

  lemma StepKeepsHonest(s: System, step: Step)
    requires Linked(s) && Honest(s) && Orderly(s)
    ensures Honest(Next(s, step))
  {
    match step
    case Serve(m) => ServeKeepsHonest(s, m);
    case Resume(i, up) =>
      if i < |s.calls| {
        CallKeepsHonest(s, i, up);
      }
    case RunTask(id, up) =>
      if id < |s.b.tasks| {
        TaskKeepsHonest(s, id, up);
      }
    case _ => AllReadBack(s, Next(s, step), None);
  }

  lemma {:induction false} RunKeepsHonest(s: System, steps: seq<Step>)
    requires Linked(s) && Honest(s) && OrderlyRun(s, steps)
    ensures Honest(Run(s, steps))
    decreases |steps|
  {
    if steps != [] {
      StepKeepsLinked(s, steps[0]);
      StepKeepsHonest(s, steps[0]);
      RunKeepsHonest(Next(s, steps[0]), steps[1..]);
    }
  }

  /** In a run whose change-of-state calls never overlap and never outlive their callers, only an expired
      backup timer leaves the mirror at INACTIVE while the node is ACTIVE, once all answers are read. */
  lemma OnlyTheBackupDivides(node: NodeState, steps: seq<Step>)
    requires OrderlyRun(Start(node), steps)
    ensures var s := Run(Start(node), steps);
            AllRead(s) && Divided(s) ==> s.forced > 0
  {
    RunKeepsHonest(Start(node), steps);
  }

  // ----- Four runs that divide mirror and node -----

  lemma {:induction false} RunConcat(s: System, a: seq<Step>, b: seq<Step>)
    ensures Run(s, a + b) == Run(Run(s, a), b)
    ensures OrderlyRun(s, a) && OrderlyRun(Run(s, a), b) ==> OrderlyRun(s, a + b)
    decreases |a|
  {
    if a == [] {
      assert a + b == b;
    } else {
      assert (a + b)[1..] == a[1..] + b;
      RunConcat(Next(s, a[0]), a[1..], b);
    }
  }

  /** Two steps at a time: the intermediate states are given. */
  lemma RunTwo(s: System, first: Step, second: Step, middle: System, end: System)
    requires Next(s, first) == middle && Next(middle, second) == end
    ensures Run(s, [first, second]) == end
    ensures Orderly(s) && Orderly(middle) && Orderly(end) ==> OrderlyRun(s, [first, second])
  {
    assert [first, second][1..] == [second];
    assert Run(middle, [second]) == Run(end, []);
  }

  const QUERIED := Message(Query, ByCall(0), Reported(Unconfigured), false)
  const CONFIGURE_READ := Message(Change(DoConfigure), ByCall(0), Outcome(true), false)
  const ACTIVATE_SENT := Message(Change(DoActivate), ByCall(1), NoReply, true)
  const ACTIVATE_READ := Message(Change(DoActivate), ByCall(1), Outcome(true), false)

  function Idle(mirror: NodeState, scenario: Option<string>, duration: Option<real>): Bridge {
    Bridge(mirror, scenario, duration, None, None, [])
  }

  /** A configure request of an unconfigured node, up to the point at which its change of state is sent. */
  function SendConfigure(duration: Option<real>): seq<Step> {
    [Configure("s", duration), Resume(0, true)] + [Serve(0), Resume(0, true)] + [Resume(0, true), Serve(1)]
  }

  /** The node has been configured, and the request has not read it yet. */
  function Unread(duration: Option<real>): System {
    System(Idle(Unconfigured, None, duration), Inactive,
           [QUERIED, CONFIGURE_READ.(open := true)], [CfgChange("s", 1)], 0, 0)
  }

  lemma SendConfigureRun(duration: Option<real>)
    ensures Run(Start(Unconfigured), SendConfigure(duration)) == Unread(duration)
    ensures OrderlyRun(Start(Unconfigured), SendConfigure(duration))
  {
    var s0 := Start(Unconfigured);
    var s1 := s0.(b := Idle(Unconfigured, None, duration), calls := [RstSecondaries(Some("s"))]);
    var s2 := s1.(messages := [QUERIED.(reply := NoReply, open := true)], calls := [RstGetState(Some("s"), 0)]);
    var s3 := s2.(messages := [QUERIED.(open := true)]);
    var s4 := s3.(messages := [QUERIED], calls := [CfgInject("s")]);
    var s5 := s4.(messages := [QUERIED, CONFIGURE_READ.(reply := NoReply, open := true)], calls := [CfgChange("s", 1)]);
    RunTwo(s0, Configure("s", duration), Resume(0, true), s1, s2);
    RunTwo(s2, Serve(0), Resume(0, true), s3, s4);
    RunTwo(s4, Resume(0, true), Serve(1), s5, Unread(duration));
    RunConcat(s0, [Configure("s", duration), Resume(0, true)], [Serve(0), Resume(0, true)]);
    RunConcat(s0, [Configure("s", duration), Resume(0, true)] + [Serve(0), Resume(0, true)],
              [Resume(0, true), Serve(1)]);
  }

  /** Overlap: `activate` is sent, served and read between the serving and the reading of the configure.  Both
      requests succeed, and the last to read sets the mirror. */
  const OVERLAP := [Activate(true), Serve(2)] + [Resume(1, true), Resume(1, true)] + [Resume(0, true)]

  function Overlapped(): System {
    System(Idle(Inactive, Some("s"), None), Active, [QUERIED, CONFIGURE_READ, ACTIVATE_READ],
           [Returned(true), Returned(true)], 0, 0)
  }

  lemma OverlapRun()
    ensures Run(Unread(None), OVERLAP) == Overlapped()
  {
    var s0 := Unread(None);
    var s1 := s0.(messages := s0.messages + [ACTIVATE_SENT], calls := s0.calls + [ActChange(2)]);
    var s2 := s1.(node := Active, messages := s0.messages + [ACTIVATE_READ.(open := true)]);
    var s3 := s2.(b := Idle(Active, None, None), messages := s0.messages + [ACTIVATE_READ],
                  calls := s0.calls + [ActBroadcast]);
    var s4 := s3.(calls := s0.calls + [Returned(true)]);
    RunTwo(s0, Activate(true), Serve(2), s1, s2);
    RunTwo(s2, Resume(1, true), Resume(1, true), s3, s4);
    RunConcat(s0, [Activate(true), Serve(2)], [Resume(1, true), Resume(1, true)]);
    RunConcat(s0, [Activate(true), Serve(2)] + [Resume(1, true), Resume(1, true)], [Resume(0, true)]);
    assert Next(s4, Resume(0, true)) == Overlapped();
    assert Run(s4, [Resume(0, true)]) == Run(Overlapped(), []);
  }

  lemma OverlapDivides()
    ensures var s := Run(Start(Unconfigured), SendConfigure(None) + OVERLAP);
            Divided(s) && AllRead(s) && s.forced == 0 && s.b.tasks == []
            && s.calls == [Returned(true), Returned(true)]
  {
    SendConfigureRun(None);
    OverlapRun();
    RunConcat(Start(Unconfigured), SendConfigure(None), OVERLAP);
  }

  /** Mirror and node after an undisturbed configure. */
  function Configured(duration: Option<real>): System {
    System(Idle(Inactive, Some("s"), duration), Inactive, [QUERIED, CONFIGURE_READ], [Returned(true)], 0, 0)
  }

  lemma ConfiguredRun(duration: Option<real>)
    ensures Run(Start(Unconfigured), SendConfigure(duration) + [Resume(0, true)]) == Configured(duration)
    ensures OrderlyRun(Start(Unconfigured), SendConfigure(duration) + [Resume(0, true)])
  {
    SendConfigureRun(duration);
    RunConcat(Start(Unconfigured), SendConfigure(duration), [Resume(0, true)]);
    var u := Unread(duration);
    assert Next(u, Resume(0, true)) == Configured(duration);
    assert Run(u, [Resume(0, true)]) == Run(Configured(duration), []);
    assert OrderlyRun(Configured(duration), []);
  }

  lemma LateRun()
    ensures Run(Configured(None), [Activate(true), Resume(1, false)] + [Serve(2)])
         == System(Idle(Inactive, Some("s"), None), Active,
                   [QUERIED, CONFIGURE_READ, ACTIVATE_READ], [Returned(true), Returned(false)], 0, 0)
  {
    var s0 := Configured(None);
    var s1 := s0.(messages := s0.messages + [ACTIVATE_SENT], calls := s0.calls + [ActChange(2)]);
    var s2 := s1.(messages := s0.messages + [ACTIVATE_SENT.(open := false)], calls := s0.calls + [Returned(false)]);
    RunTwo(s0, Activate(true), Resume(1, false), s1, s2);
    RunConcat(s0, [Activate(true), Resume(1, false)], [Serve(2)]);
    assert Run(s2, [Serve(2)]) == Run(Next(s2, Serve(2)), []);
  }

  /** A late call: requests follow one another, but `activate` gives up before the node serves it. */
  lemma LateCallDivides()
    ensures var steps := SendConfigure(None) + [Resume(0, true)] + ([Activate(true), Resume(1, false)] + [Serve(2)]);
            var s := Run(Start(Unconfigured), steps);
            Divided(s) && AllRead(s) && s.forced == 0 && s.b.tasks == []
            && s.calls == [Returned(true), Returned(false)]
  {
    ConfiguredRun(None);
    LateRun();
    RunConcat(Start(Unconfigured), SendConfigure(None) + [Resume(0, true)],
              [Activate(true), Resume(1, false)] + [Serve(2)]);
  }

  /** `deactivate` between the serving and the reading of an `activate`: it returns success at once, and the
      node is already active. */
  lemma DeactivateMissesTheActivate()
    ensures var s := Run(Start(Unconfigured),
                         SendConfigure(None) + [Resume(0, true)] + [Activate(true), Serve(2)] + [Deactivate(true)]);
            Divided(s) && s.calls == [Returned(true), ActChange(2), Returned(true)]
  {
    var s0 := Configured(None);
    var s1 := s0.(messages := s0.messages + [ACTIVATE_SENT], calls := s0.calls + [ActChange(2)]);
    var s2 := s1.(node := Active, messages := s0.messages + [ACTIVATE_READ.(open := true)]);
    var before := SendConfigure(None) + [Resume(0, true)];
    ConfiguredRun(None);
    RunTwo(s0, Activate(true), Serve(2), s1, s2);
    RunConcat(Start(Unconfigured), before, [Activate(true), Serve(2)]);
    RunConcat(Start(Unconfigured), before + [Activate(true), Serve(2)], [Deactivate(true)]);
    assert Run(s2, [Deactivate(true)]) == Run(Next(s2, Deactivate(true)), []);
  }

  /** Activate is served and read, and its two timers start; the auto-stop timer expires while the service is
      away, and the backup timer expires. */
  const BACKUP := [Activate(true), Serve(2)] + [Resume(1, true), Resume(1, true)]
                  + [RunTask(0, false), RunTask(1, true)]

  /** Active, with both timers asleep. */
  function Running(): System {
    System(Bridge(Active, Some("s"), Some(60.0), Some(0), Some(1),
                  [Task(AutoStop, Sleeping, false), Task(Backup, Sleeping, false)]),
           Active, [QUERIED, CONFIGURE_READ, ACTIVATE_READ], [Returned(true), Returned(true)], 0, 0)
  }

  function BackedUp(): System {
    System(Bridge(Inactive, Some("s"), Some(60.0), None, Some(1),
                  [Task(AutoStop, Finished, true), Task(Backup, Finished, false)]),
           Active, [QUERIED, CONFIGURE_READ, ACTIVATE_READ], [Returned(true), Returned(true)], 0, 1)
  }

  lemma RunningRun()
    ensures Run(Configured(Some(60.0)), [Activate(true), Serve(2)] + [Resume(1, true), Resume(1, true)]) == Running()
    ensures OrderlyRun(Configured(Some(60.0)), [Activate(true), Serve(2)] + [Resume(1, true), Resume(1, true)])
  {
    var s0 := Configured(Some(60.0));
    var s1 := s0.(messages := s0.messages + [ACTIVATE_SENT], calls := s0.calls + [ActChange(2)]);
    var s2 := s1.(node := Active, messages := s0.messages + [ACTIVATE_READ.(open := true)]);
    var s3 := s2.(b := s0.b.(mirror := Active), messages := s0.messages + [ACTIVATE_READ],
                  calls := s0.calls + [ActBroadcast]);
    RunTwo(s0, Activate(true), Serve(2), s1, s2);
    RunTwo(s2, Resume(1, true), Resume(1, true), s3, Running());
    RunConcat(s0, [Activate(true), Serve(2)], [Resume(1, true), Resume(1, true)]);
  }

  lemma BackupRun()
    ensures Run(Configured(Some(60.0)), BACKUP) == BackedUp() && OrderlyRun(Configured(Some(60.0)), BACKUP)
  {
    var s := Running();
    RunningRun();
    RunTwo(s, RunTask(0, false), RunTask(1, true),
           s.(b := s.b.(tasks := [Task(AutoStop, Finished, false), Task(Backup, Sleeping, false)])), BackedUp());
    RunConcat(Configured(Some(60.0)), [Activate(true), Serve(2)] + [Resume(1, true), Resume(1, true)],
              [RunTask(0, false), RunTask(1, true)]);
  }

  /** In an orderly run the backup timer divides mirror and node, and `deactivate` then returns success on a
      node that keeps running, with both timers gone. */
  lemma BackupThenDeactivateLeavesTheNodeActive()
    ensures var steps := SendConfigure(Some(60.0)) + [Resume(0, true)] + BACKUP;
            var s := Run(Start(Unconfigured), steps);
            && OrderlyRun(Start(Unconfigured), steps)
            && Divided(s) && AllRead(s) && s.forced == 1
            && var e := Next(s, Deactivate(true));
               Divided(e) && e.calls == s.calls + [Returned(true)] && e.b.timerTask.None? && e.b.backupTask.None?
  {
    ConfiguredRun(Some(60.0));
    BackupRun();
    RunConcat(Start(Unconfigured), SendConfigure(Some(60.0)) + [Resume(0, true)], BACKUP);
  }
}
