/** The ROC operator simulator: take-over requests, manual responses and auto-accept timers.

    The class holds what `_lock` protects plus the two things outside it: timer threads, and responses
    that have left the lock but are not published yet.  Its methods are the critical sections and the
    events between them; each is tied to a function on `Roc` values, and `RocNodeRuns` lets them
    interleave in any order.
 */
module RocNode {
  import opened Options

  datatype Answer = Accept | Reject | Defer

  /** `Fired`: the callback is running but has not taken the lock, so cancelling it has no effect. */
  datatype TimerStatus = Pending | Fired | Cancelled | Done

  /** `armedFor` is the request whose arrival started the timer. */
  datatype Timer = Timer(armedFor: nat, status: TimerStatus)

  /** A response on its way to the publisher, with the request it was recorded for and, for an
      automatic one, the timer that made it. */
  datatype Outgoing = Outgoing(request: nat, answer: Answer, timer: Option<nat>)

  /** Requests are numbered from 1 in order of arrival; 0 means there has been none. */
  datatype Roc = Roc(
    autoMode: bool, request: nat, response: Option<Answer>,
    timers: seq<Timer>, autoTimer: Option<nat>,
    inFlight: seq<Outgoing>, published: seq<Outgoing>)

  function Start(autoMode: bool): Roc {
    Roc(autoMode, 0, None, [], None, [], [])
  }

  /** `threading.Timer.cancel`: only a timer that has not fired yet is stopped. */
  function CancelTimer(timers: seq<Timer>, held: Option<nat>): (r: seq<Timer>)
    ensures |r| == |timers|
  {
    if held.Some? && held.value < |timers| && timers[held.value].status == Pending
    then timers[held.value := timers[held.value].(status := Cancelled)]
    else timers
  }

  /** `_on_tor_request` */
  function Requested(s: Roc): Roc {
    var s' := s.(request := s.request + 1, response := None);
    if !s.autoMode then s'
    else s'.(timers := CancelTimer(s.timers, s.autoTimer) + [Timer(s.request + 1, Pending)],
             autoTimer := Some(|s.timers|))
  }

  /** `str.upper` on ASCII letters. */
  function Upper(s: string): string {
    seq(|s|, i requires 0 <= i < |s| =>
      if 'a' <= s[i] <= 'z' then ((s[i] as int - 'a' as int + 'A' as int) as char) else s[i])
  }

  function ParseAnswer(text: string): Option<Answer> {
    if Upper(text) == "ACCEPT" then Some(Accept)
    else if Upper(text) == "REJECT" then Some(Reject)
    else if Upper(text) == "DEFER" then Some(Defer)
    else None
  }

  /** `text` is `word` in any mixture of upper and lower case. */
  predicate Spells(text: string, word: string) {
    && |text| == |word|
    && forall i :: 0 <= i < |text| ==> text[i] == word[i] || text[i] as int == word[i] as int + 32
  }

  lemma UpperSpells(text: string, word: string)
    requires forall i :: 0 <= i < |word| ==> 'A' <= word[i] <= 'Z'
    ensures Upper(text) == word <==> Spells(text, word)
  {
    if Upper(text) == word {
      forall i | 0 <= i < |text| ensures text[i] == word[i] || text[i] as int == word[i] as int + 32 {
        assert Upper(text)[i] == word[i];
      }
    }
  }

  /** The three words are accepted in any case, and nothing else is. */
  lemma ParseMeaning(text: string)
    ensures ParseAnswer(text) == Some(Accept) <==> Spells(text, "ACCEPT")
    ensures ParseAnswer(text) == Some(Reject) <==> Spells(text, "REJECT")
    ensures ParseAnswer(text) == Some(Defer) <==> Spells(text, "DEFER")
  {
    UpperSpells(text, "ACCEPT");
    UpperSpells(text, "REJECT");
    UpperSpells(text, "DEFER");
  }

  predicate MayRespond(s: Roc) {
    s.request != 0 && s.response.None?
  }

  /** `respond_to_tor` up to the release of the lock. */
  function Responded(s: Roc, answer: Answer): Roc {
    if !MayRespond(s) then s
    else s.(timers := CancelTimer(s.timers, s.autoTimer), autoTimer := None,
            response := Some(answer), inFlight := s.inFlight + [Outgoing(s.request, answer, None)])
  }

  function TimerFired(s: Roc, id: nat): Roc {
    if id < |s.timers| && s.timers[id].status == Pending
    then s.(timers := s.timers[id := s.timers[id].(status := Fired)])
    else s
  }

  /** The critical section of `_auto_accept`; it does not check which request the timer belongs to. */
  function AutoAccepted(s: Roc, id: nat): Roc {
    if id < |s.timers| && s.timers[id].status == Fired then
      var s' := s.(timers := s.timers[id := s.timers[id].(status := Done)]);
      if MayRespond(s)
      then s'.(response := Some(Accept), inFlight := s.inFlight + [Outgoing(s.request, Accept, Some(id))])
      else s'
    else s
  }

  /** Some thread past the lock publishes; threads get there in any order. */
  function Published(s: Roc, k: nat): Roc {
    if k < |s.inFlight|
    then s.(inFlight := s.inFlight[..k] + s.inFlight[k + 1..], published := s.published + [s.inFlight[k]])
    else s
  }

  class RocHmiSimulatorNode {
    const autoMode: bool
    var request: nat
    var response: Option<Answer>
    var timers: seq<Timer>
    var autoTimer: Option<nat>
    var inFlight: seq<Outgoing>
    var published: seq<Outgoing>

    function State(): Roc
      reads this
    {
      Roc(autoMode, request, response, timers, autoTimer, inFlight, published)
    }

    constructor (autoMode: bool)
      ensures State() == Start(autoMode)
    {
      this.autoMode := autoMode;
      request, response, timers, autoTimer, inFlight, published := 0, None, [], None, [], [];
    }

    method CancelAutoTimer()
      modifies `timers
      ensures timers == CancelTimer(old(timers), autoTimer)
    {
      if autoTimer.Some? && autoTimer.value < |timers| && timers[autoTimer.value].status == Pending {
        timers := timers[autoTimer.value := timers[autoTimer.value].(status := Cancelled)];
      }
    }

    method OnTorRequest()
      modifies this
      ensures State() == Requested(old(State()))
    {
      request := request + 1;
      response := None;
      if autoMode {
        if autoTimer.Some? {
          CancelAutoTimer();
        }
        autoTimer := Some(|timers|);
        timers := timers + [Timer(request, Pending)];
      }
    }

    /** Returns whether this caller goes on to publish. */
    method RespondToTor(text: string) returns (ok: bool)
      modifies this
      ensures ok == (ParseAnswer(text).Some? && MayRespond(old(State())))
      ensures State() == if ParseAnswer(text).Some? then Responded(old(State()), ParseAnswer(text).value)
                         else old(State())
    {
      var answer := ParseAnswer(text);
      if answer.None? {
        return false;
      }
      if request == 0 {
        return false;
      }
      if response.Some? {
        return false;
      }
      if autoTimer.Some? {
        CancelAutoTimer();
        autoTimer := None;
      }
      response := answer;
      inFlight := inFlight + [Outgoing(request, answer.value, None)];
      return true;
    }

    method FireTimer(id: nat)
      modifies `timers
      ensures State() == TimerFired(old(State()), id)
    {
      if id < |timers| && timers[id].status == Pending {
        timers := timers[id := timers[id].(status := Fired)];
      }
    }

    method AutoAccept(id: nat)
      requires id < |timers| && timers[id].status == Fired
      modifies this
      ensures State() == AutoAccepted(old(State()), id)
    {
      timers := timers[id := timers[id].(status := Done)];
      if response.Some? {
        return;
      }
      if request == 0 {
        return;
      }
      response := Some(Accept);
      inFlight := inFlight + [Outgoing(request, Accept, Some(id))];
    }

    method Publish(k: nat)
      requires k < |inFlight|
      modifies this
      ensures State() == Published(old(State()), k)
    {
      published := published + [inFlight[k]];
      inFlight := inFlight[..k] + inFlight[k + 1..];
    }
  }
}
