/** Every interleaving of requests, manual responses, timers and publishes. */
module RocNodeRuns {
  import opened Options
  import opened RocNode

  datatype Step =
    | Request
    | Respond(answer: Answer)
    | Fire(id: nat)
    | AutoAccept(id: nat)
    | Publish(k: nat)

  function Next(s: Roc, step: Step): Roc {
    match step
    case Request => Requested(s)
    case Respond(answer) => Responded(s, answer)
    case Fire(id) => TimerFired(s, id)
    case AutoAccept(id) => AutoAccepted(s, id)
    case Publish(k) => Published(s, k)
  }

  function Run(s: Roc, steps: seq<Step>): Roc
    decreases |steps|
  {
    if steps == [] then s else Run(Next(s, steps[0]), steps[1..])
  }

  /** Every response that has left the lock, published or not. */
  function Answers(s: Roc): seq<Outgoing> {
    s.published + s.inFlight
  }

  ghost predicate Inv(s: Roc) {
    && (s.request == 0 ==> s.response.None?)
    // At most one answer per request, and only for requests that have arrived.
    && (forall i, j :: 0 <= i < j < |Answers(s)| ==> Answers(s)[i].request != Answers(s)[j].request)
    && (forall o :: o in Answers(s) ==> 1 <= o.request <= s.request)
    // The recorded response of the current request is the one that was sent for it.
    && (s.response.Some? <==> exists o :: o in Answers(s) && o.request == s.request)
    && (forall o :: o in Answers(s) && o.request == s.request ==> Some(o.answer) == s.response)
    // A timer that can still fire is the held one and belongs to the current request.
    && (s.autoTimer.Some? ==> s.autoTimer.value < |s.timers| && s.timers[s.autoTimer.value].armedFor == s.request)
    && (forall id :: 0 <= id < |s.timers| && s.timers[id].status == Pending ==> s.autoTimer == Some(id))
    && (forall id :: 0 <= id < |s.timers| ==> s.timers[id].armedFor <= s.request)
    && (!s.autoMode ==> s.timers == [] && s.autoTimer.None?)
  }

  lemma StartInv(autoMode: bool)
    ensures Inv(Start(autoMode))
  {
  }

  lemma AnswerKeepsInv(s: Roc, s': Roc, o: Outgoing)
    requires Inv(s) && MayRespond(s)
    requires o.request == s.request == s'.request && s'.response == Some(o.answer)
    requires s'.published == s.published && s'.inFlight == s.inFlight + [o]
    requires |s'.timers| == |s.timers| && s'.autoMode == s.autoMode
    requires forall id :: 0 <= id < |s.timers| ==> s'.timers[id].armedFor == s.timers[id].armedFor
    requires forall id :: 0 <= id < |s.timers| && s'.timers[id].status == Pending ==> s'.autoTimer == Some(id)
    requires s'.autoTimer == s.autoTimer || s'.autoTimer.None?
    ensures Inv(s')
  {
    assert Answers(s') == Answers(s) + [o];
    assert o in Answers(s');
  }

  /** Where the `i`-th answer stood before in-flight answer `k` moved behind `p` published ones. */
  function Before(p: nat, k: nat, i: nat): nat {
    if i < p || i > p + k then i else if i == p then p + k else i - 1
  }

  lemma PublishMoves(s: Roc, k: nat, i: nat)
    requires k < |s.inFlight| && i < |Answers(s)|
    ensures |Answers(Published(s, k))| == |Answers(s)|
    ensures Before(|s.published|, k, i) < |Answers(s)|
    ensures Answers(Published(s, k))[i] == Answers(s)[Before(|s.published|, k, i)]
  {
  }

  lemma PublishKeepsAnswers(s: Roc, k: nat)
    requires k < |s.inFlight|
    requires forall i, j :: 0 <= i < j < |Answers(s)| ==> Answers(s)[i].request != Answers(s)[j].request
    ensures var a' := Answers(Published(s, k));
            && (forall o :: o in a' <==> o in Answers(s))
            && (forall i, j :: 0 <= i < j < |a'| ==> a'[i].request != a'[j].request)
  {
    var p := |s.published|;
    var a, a' := Answers(s), Answers(Published(s, k));
    PublishMoves(s, k, 0);
    forall o | o in a ensures o in a' {
      var i :| 0 <= i < |a| && a[i] == o;
      var n := if i < p || i > p + k then i else if i == p + k then p else i + 1;
      PublishMoves(s, k, n);
      assert a'[n] == o;
    }
    forall o | o in a' ensures o in a {
      var i :| 0 <= i < |a'| && a'[i] == o;
      PublishMoves(s, k, i);
    }
    forall i, j | 0 <= i < j < |a'| ensures a'[i].request != a'[j].request {
      PublishMoves(s, k, i);
      PublishMoves(s, k, j);
      assert Before(p, k, i) != Before(p, k, j);
    }
  }

  lemma StepKeepsInv(s: Roc, step: Step)
    requires Inv(s)
    ensures Inv(Next(s, step))
  {
    var s' := Next(s, step);
    match step
    case Request =>
      assert Answers(s') == Answers(s);
    case Respond(answer) =>
      if MayRespond(s) {
        AnswerKeepsInv(s, s', Outgoing(s.request, answer, None));
      }
    case Fire(_) =>
      assert Answers(s') == Answers(s);
    case AutoAccept(id) =>
      if id < |s.timers| && s.timers[id].status == Fired && MayRespond(s) {
        AnswerKeepsInv(s, s', Outgoing(s.request, Accept, Some(id)));
      } else {
        assert Answers(s') == Answers(s);
      }
    case Publish(k) =>
      if k < |s.inFlight| {
        PublishKeepsAnswers(s, k);
      }
  }

  lemma {:induction false} RunKeepsInv(s: Roc, steps: seq<Step>)
    requires Inv(s)
    ensures Inv(Run(s, steps))
    decreases |steps|
  {
    if steps != [] {
      StepKeepsInv(s, steps[0]);
      RunKeepsInv(Next(s, steps[0]), steps[1..]);
    }
  }

  /** At most one response per take-over request: the published responses map one-to-one into the
      requests received, and the one for the current request is the one recorded. */
  lemma AtMostOneResponsePerRequest(autoMode: bool, steps: seq<Step>)
    ensures var p := Run(Start(autoMode), steps).published;
            forall i, j :: 0 <= i < j < |p| ==> p[i].request != p[j].request
    ensures var s := Run(Start(autoMode), steps);
            forall o :: o in s.published ==>
              1 <= o.request <= s.request && (o.request == s.request ==> s.response == Some(o.answer))
  {
    StartInv(autoMode);
    RunKeepsInv(Start(autoMode), steps);
    var s := Run(Start(autoMode), steps);
    var p := s.published;
    forall i, j | 0 <= i < j < |p| ensures p[i].request != p[j].request {
      assert Answers(s)[i] == p[i] && Answers(s)[j] == p[j];
    }
    forall o | o in p ensures o in Answers(s) {
    }
  }

  lemma {:induction false} RunConcat(s: Roc, a: seq<Step>, b: seq<Step>)
    ensures Run(s, a + b) == Run(Run(s, a), b)
    decreases |a|
  {
    if a == [] {
      assert a + b == b;
    } else {
      assert (a + b)[1..] == a[1..] + b;
      RunConcat(Next(s, a[0]), a[1..], b);
    }
  }

  function Requests(steps: seq<Step>): nat {
    if steps == [] then 0 else (if steps[0].Request? then 1 else 0) + Requests(steps[1..])
  }

  lemma {:induction false} RequestsCount(s: Roc, steps: seq<Step>)
    ensures Run(s, steps).request == s.request + Requests(steps)
    decreases |steps|
  {
    if steps != [] {
      RequestsCount(Next(s, steps[0]), steps[1..]);
    }
  }

  /** A recorded response never changes until the next request, and what has left the lock is neither
      altered nor dropped on its way to the publisher. */
  lemma {:induction false} ResponseIsFinal(s: Roc, steps: seq<Step>)
    requires Inv(s)
    ensures s.response.Some? && Requests(steps) == 0 ==> Run(s, steps).response == s.response
    ensures forall o :: o in Answers(s) ==> o in Answers(Run(s, steps))
    decreases |steps|
  {
    if steps != [] {
      var s' := Next(s, steps[0]);
      StepKeepsInv(s, steps[0]);
      StepKeepsAnswers(s, steps[0]);
      ResponseIsFinal(s', steps[1..]);
    }
  }

  lemma StepKeepsAnswers(s: Roc, step: Step)
    requires Inv(s)
    ensures forall o :: o in Answers(s) ==> o in Answers(Next(s, step))
    ensures !step.Request? && s.response.Some? ==> Next(s, step).response == s.response
  {
  }

  /** Once everything in flight is published, every answered request has exactly its own response out. */
  lemma CurrentAnswerGetsOut(autoMode: bool, steps: seq<Step>)
    requires Run(Start(autoMode), steps).inFlight == []
    requires Run(Start(autoMode), steps).response.Some?
    ensures var s := Run(Start(autoMode), steps);
            exists o :: o in s.published && o.request == s.request && Some(o.answer) == s.response
  {
    StartInv(autoMode);
    RunKeepsInv(Start(autoMode), steps);
    var s := Run(Start(autoMode), steps);
    assert Answers(s) == s.published;
  }

  // ----- Which request an automatic answer goes to -----

  /** In every run: a timer that can still fire is the held one and was armed by the current request. */
  lemma PendingTimerIsCurrent(autoMode: bool, steps: seq<Step>, id: nat)
    requires var s := Run(Start(autoMode), steps); id < |s.timers| && s.timers[id].status == Pending
    ensures var s := Run(Start(autoMode), steps);
            s.autoTimer == Some(id) && s.timers[id].armedFor == s.request
  {
    StartInv(autoMode);
    RunKeepsInv(Start(autoMode), steps);
  }

  lemma {:induction false} FiredTimerStays(s: Roc, steps: seq<Step>, id: nat)
    requires id < |s.timers| && s.timers[id].status != Pending
    ensures var e := Run(s, steps);
            id < |e.timers| && e.timers[id].armedFor == s.timers[id].armedFor
    decreases |steps|
  {
    if steps != [] {
      FiredTimerStays(Next(s, steps[0]), steps[1..], id);
    }
  }

  /** A timer that was cancelled, or has had its turn, never fires again. */
  lemma {:induction false} FinishedTimersStay(s: Roc, steps: seq<Step>, id: nat)
    requires id < |s.timers| && s.timers[id].status in {Cancelled, Done}
    ensures var e := Run(s, steps);
            id < |e.timers| && e.timers[id] == s.timers[id]
    decreases |steps|
  {
    if steps != [] {
      FinishedTimersStay(Next(s, steps[0]), steps[1..], id);
    }
  }

  /** A timer that fires, waits for the lock during `gap`, and then accepts, answers the request that
      armed it exactly when no new request arrived in the gap. */
  lemma AutoAcceptAnswersItsRequestIff(autoMode: bool, steps: seq<Step>, id: nat, gap: seq<Step>)
    requires var s := Run(Start(autoMode), steps); id < |s.timers| && s.timers[id].status == Pending
    requires var e := Run(TimerFired(Run(Start(autoMode), steps), id), gap);
             id < |e.timers| && e.timers[id].status == Fired && MayRespond(e)
    ensures var s := Run(Start(autoMode), steps);
            var e := Run(TimerFired(s, id), gap);
            var sent := AutoAccepted(e, id).inFlight;
            && |sent| == |e.inFlight| + 1
            && (sent[|e.inFlight|].request == s.timers[id].armedFor <==> Requests(gap) == 0)
  {
    var s := Run(Start(autoMode), steps);
    PendingTimerIsCurrent(autoMode, steps, id);
    RequestsCount(TimerFired(s, id), gap);
    FiredTimerStays(TimerFired(s, id), gap, id);
  }

  /** The bad case is reachable: a timer that fired for request 1 accepts request 2 at once. */
  lemma StaleTimerAcceptsNextRequest()
    ensures Run(Start(true), [Request, Fire(0), Request, AutoAccept(0)]).inFlight
         == [Outgoing(2, Accept, Some(0))]
  {
  }

  // ----- Every request is answered -----

  /** Timer `id` was started for the current request and can still accept it. */
  ghost predicate Armed(s: Roc, id: nat) {
    id < |s.timers| && s.timers[id].armedFor == s.request && s.timers[id].status in {Pending, Fired}
  }

  ghost predicate AnswerIsComing(s: Roc) {
    s.autoMode && MayRespond(s) ==> exists id :: Armed(s, id)
  }

  lemma StepKeepsAnswerComing(s: Roc, step: Step)
    requires AnswerIsComing(s)
    ensures AnswerIsComing(Next(s, step))
  {
    var s' := Next(s, step);
    if s'.autoMode && MayRespond(s') {
      if step.Request? {
        assert Armed(s', |s.timers|);
      } else {
        var id :| Armed(s, id);
        assert Armed(s', id);
      }
    }
  }

  lemma {:induction false} RunKeepsAnswerComing(s: Roc, steps: seq<Step>)
    requires AnswerIsComing(s)
    ensures AnswerIsComing(Run(s, steps))
    decreases |steps|
  {
    if steps != [] {
      StepKeepsAnswerComing(s, steps[0]);
      RunKeepsAnswerComing(Next(s, steps[0]), steps[1..]);
    }
  }

  /** A timer that can still accept the open request does so: the request is answered, once, and by nobody
      else. */
  lemma ArmedTimerAnswers(s: Roc, id: nat)
    requires MayRespond(s) && Armed(s, id)
    ensures var e := Run(s, [Fire(id), AutoAccept(id)]);
            && e.request == s.request && e.response == Some(Accept)
            && e.inFlight == s.inFlight + [Outgoing(s.request, Accept, Some(id))]
            && e.published == s.published
  {
    var fired := TimerFired(s, id);
    assert [Fire(id), AutoAccept(id)][1..] == [AutoAccept(id)];
    assert Run(fired, [AutoAccept(id)]) == AutoAccepted(fired, id);
  }

  /** Whatever has happened before, in automatic mode an open request has a timer of its own, and that timer
      answers it. */
  lemma OpenRequestIsAnswered(steps: seq<Step>) returns (id: nat)
    requires MayRespond(Run(Start(true), steps))
    ensures var s := Run(Start(true), steps);
            && Armed(s, id)
            && Run(s, [Fire(id), AutoAccept(id)]).response == Some(Accept)
            && Run(s, [Fire(id), AutoAccept(id)]).inFlight == s.inFlight + [Outgoing(s.request, Accept, Some(id))]
  {
    RunKeepsAnswerComing(Start(true), steps);
    RunKeepsMode(Start(true), steps);
    id :| Armed(Run(Start(true), steps), id);
    ArmedTimerAnswers(Run(Start(true), steps), id);
  }

  lemma {:induction false} RunKeepsMode(s: Roc, steps: seq<Step>)
    ensures Run(s, steps).autoMode == s.autoMode
    decreases |steps|
  {
    if steps != [] {
      RunKeepsMode(Next(s, steps[0]), steps[1..]);
    }
  }

  /** A response that is taken is recorded and sent for the current request, and no timer can fire any more. */
  lemma ManualAnswerStopsTheTimers(autoMode: bool, steps: seq<Step>, answer: Answer)
    requires MayRespond(Run(Start(autoMode), steps))
    ensures var s := Run(Start(autoMode), steps);
            var e := Next(s, Respond(answer));
            && e.request == s.request && e.response == Some(answer)
            && e.inFlight == s.inFlight + [Outgoing(s.request, answer, None)] && e.published == s.published
            && forall id :: 0 <= id < |e.timers| ==> e.timers[id].status != Pending
  {
    StartInv(autoMode);
    RunKeepsInv(Start(autoMode), steps);
  }

  /** Publishing moves one response out and leaves the others where they are. */
  lemma PublishMovesOne(s: Roc, k: nat)
    requires k < |s.inFlight|
    ensures var e := Next(s, Publish(k));
            && e.published == s.published + [s.inFlight[k]]
            && multiset(e.inFlight) + multiset{s.inFlight[k]} == multiset(s.inFlight)
            && e == s.(inFlight := e.inFlight, published := e.published)
  {
    assert s.inFlight == s.inFlight[..k] + [s.inFlight[k]] + s.inFlight[k + 1..];
  }
}
