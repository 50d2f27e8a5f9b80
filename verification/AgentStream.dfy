/** One agent session: the handler goroutine, the bounded send and receive channels, the
    atomic sequence counter, cancellation and the consumer of the event channel.  Every
    channel operation and every action of the handler is one step. */
module AgentStream {
  import opened Wrappers

  const SEND_CAPACITY: nat := 100
  const RECV_CAPACITY: nat := 100

  datatype Kind = Message | RequestInput | Completed | Failed | Other(name: string)

  /** Who put the event on the channel: the handler through Send, or RunHandler itself. */
  datatype Origin = FromHandler | FromRunner

  datatype Event = Event(kind: Kind, content: Option<string>, sequence: nat, origin: Origin)

  datatype Outcome = ReturnedNil | ReturnedError | Panicked

  /** Where the handler goroutine stands. */
  datatype Pc =
    | Running
    | Sending(event: Event, thenReceive: bool)
    | Receiving
    | Returned(outcome: Outcome)
    | Cleanup
    | ClosingSend
    | ClosingDone
    | Closed

  /** One call of Send and whether it returned nil. */
  datatype Attempt = Attempt(event: Event, accepted: bool)

  /** What became of RunHandler's own event, and the handler outcome it stands for. */
  datatype Terminal = NotYet | Sent(event: Event, outcome: Outcome) | Dropped(outcome: Outcome)

  datatype Session = Session(
    counter: nat,
    sendBuf: seq<Event>,
    recvBuf: seq<string>,
    cancelled: bool,
    sendClosed: bool,
    done: bool,
    pc: Pc,
    onDoneRuns: nat,
    attempts: seq<Attempt>,
    terminal: Terminal,
    delivered: seq<Event>,
    offered: seq<string>,
    received: seq<string>)

  datatype Step =
    | Call(kind: Kind, content: Option<string>)
    | Ask(prompt: string)
    | Wait
    | Enqueue
    | Abort
    | TakeInput
    | AbortReceive
    | Finish(outcome: Outcome)
    | SendTerminal
    | RunOnDone
    | CloseSend
    | CloseDone
    | Cancel
    | Deliver(msg: string)
    | Consume

  const START := Session(0, [], [], false, false, false, Running, 0, [], NotYet, [], [], [])

  function TerminalEvent(outcome: Outcome, sequence: nat): Event {
    Event(if outcome == ReturnedNil then Completed else Failed, None, sequence, FromRunner)
  }

  function BeginSend(s: Session, kind: Kind, content: Option<string>, thenReceive: bool): Session {
    s.(counter := s.counter + 1,
    pc := Sending(Event(kind, content, s.counter + 1, FromHandler), thenReceive))
  }

  /** One step; a step that is not enabled (a channel is full or empty, the handler is
      elsewhere) leaves the session as it is. */
  function Apply(s: Session, step: Step): Session {
    match step
    case Call(kind, content) => if s.pc == Running then BeginSend(s, kind, content, false) else s
    case Ask(prompt) => if s.pc == Running then BeginSend(s, RequestInput, Some(prompt), true) else s
    case Wait => if s.pc == Running then s.(pc := Receiving) else s
    case Enqueue =>
      if s.pc.Sending? && |s.sendBuf| < SEND_CAPACITY then
        s.(sendBuf := s.sendBuf + [s.pc.event],
        attempts := s.attempts + [Attempt(s.pc.event, true)],
        pc := if s.pc.thenReceive then Receiving else Running)
      else s
    case Abort =>
      if s.pc.Sending? && s.cancelled then
        s.(attempts := s.attempts + [Attempt(s.pc.event, false)], pc := Running)
      else s
    case TakeInput =>
      if s.pc == Receiving && s.recvBuf != [] then
        s.(received := s.received + [s.recvBuf[0]], recvBuf := s.recvBuf[1..], pc := Running)
      else s
    case AbortReceive => if s.pc == Receiving && s.cancelled then s.(pc := Running) else s
    case Finish(outcome) => if s.pc == Running then s.(pc := Returned(outcome)) else s
    case SendTerminal =>
      if s.pc.Returned? then
        var e := TerminalEvent(s.pc.outcome, s.counter + 1);
        if |s.sendBuf| < SEND_CAPACITY then
          s.(counter := s.counter + 1, sendBuf := s.sendBuf + [e], terminal := Sent(e, s.pc.outcome), pc := Cleanup)
        else
          s.(counter := s.counter + 1, terminal := Dropped(s.pc.outcome), pc := Cleanup)
      else s
    case RunOnDone =>
      if s.pc == Cleanup then s.(onDoneRuns := s.onDoneRuns + 1, pc := ClosingSend) else s
    case CloseSend => if s.pc == ClosingSend then s.(sendClosed := true, pc := ClosingDone) else s
    case CloseDone => if s.pc == ClosingDone then s.(done := true, pc := Closed) else s
    case Cancel => s.(cancelled := true)
    case Deliver(msg) =>
      if |s.recvBuf| < RECV_CAPACITY then
        s.(recvBuf := s.recvBuf + [msg], offered := s.offered + [msg])
      else s
    case Consume =>
      if s.sendBuf != [] then
        s.(delivered := s.delivered + [s.sendBuf[0]], sendBuf := s.sendBuf[1..])
      else s
  }

  function Exec(s: Session, steps: seq<Step>): Session {
    if steps == [] then s else Apply(Exec(s, steps[..|steps| - 1]), steps[|steps| - 1])
  }

  /** The events whose Send returned nil, in the order of the calls. */
  function Accepted(attempts: seq<Attempt>): seq<Event> {
    if attempts == [] then []
    else
      var a := attempts[|attempts| - 1];
      Accepted(attempts[..|attempts| - 1]) + if a.accepted then [a.event] else []
  }

  function TerminalPart(t: Terminal): seq<Event> {
    if t.Sent? then [t.event] else []
  }

  /** Everything put on the event channel. */
  function Emitted(s: Session): seq<Event> {
    Accepted(s.attempts) + TerminalPart(s.terminal)
  }

  predicate HandlerActive(pc: Pc) { pc.Running? || pc.Sending? || pc.Receiving? }

  ghost predicate ChannelInv(s: Session) {
    && Emitted(s) == s.delivered + s.sendBuf
    && s.offered == s.received + s.recvBuf
    && |s.sendBuf| <= SEND_CAPACITY && |s.recvBuf| <= RECV_CAPACITY
    && (s.terminal.Dropped? ==> |Accepted(s.attempts)| >= SEND_CAPACITY)
  }

  /** Sequence numbers are the positions of the Send calls. */
  ghost predicate SequenceInv(s: Session) {
    && (forall k :: 0 <= k < |s.attempts| ==>
          s.attempts[k].event.sequence == k + 1 && s.attempts[k].event.origin == FromHandler)
    && (s.pc.Sending? ==> s.pc.event.sequence == |s.attempts| + 1 && s.pc.event.origin == FromHandler)
    && s.counter == |s.attempts| + (if s.pc.Sending? || !s.terminal.NotYet? then 1 else 0)
    && (s.terminal.Sent? ==> s.terminal.event == TerminalEvent(s.terminal.outcome, |s.attempts| + 1))
  }

  predicate LifecycleInv(s: Session) {
    && (s.terminal.NotYet? <==> HandlerActive(s.pc) || s.pc.Returned?)
    && s.onDoneRuns == (if s.pc.ClosingSend? || s.pc.ClosingDone? || s.pc.Closed? then 1 else 0)
    && (s.sendClosed <==> s.pc.ClosingDone? || s.pc.Closed?)
    && (s.done <==> s.pc.Closed?)
  }

  ghost predicate Inv(s: Session) {
    ChannelInv(s) && SequenceInv(s) && LifecycleInv(s)
  }

  lemma AcceptedAppend(attempts: seq<Attempt>, a: Attempt)
    ensures Accepted(attempts + [a]) == Accepted(attempts) + if a.accepted then [a.event] else []
  {
    assert (attempts + [a])[..|attempts|] == attempts;
  }

  lemma TerminalStep(s: Session)
    requires Inv(s) && s.pc.Returned?
    ensures ChannelInv(Apply(s, SendTerminal))
  {
    assert Emitted(s) == Accepted(s.attempts);
    assert |s.delivered + s.sendBuf| == |Accepted(s.attempts)|;
  }

  lemma AttemptStep(s: Session, ok: bool)
    requires Inv(s) && s.pc.Sending?
    ensures ChannelInv(Apply(s, if ok then Enqueue else Abort))
  {
    hide Accepted, SequenceInv;
    var t := Apply(s, if ok then Enqueue else Abort);
    if t != s {
      assert t.attempts == s.attempts + [Attempt(s.pc.event, ok)] && t.terminal == s.terminal == NotYet;
      assert t.sendBuf == (if ok then s.sendBuf + [s.pc.event] else s.sendBuf) && t.delivered == s.delivered;
      hide Apply, LifecycleInv;
      EmitAttempt(s, t, s.pc.event, ok);
    }
  }

  lemma EmitAttempt(s: Session, t: Session, e: Event, ok: bool)
    requires s.terminal == t.terminal == NotYet && t.attempts == s.attempts + [Attempt(e, ok)]
    requires t.delivered == s.delivered && t.sendBuf == if ok then s.sendBuf + [e] else s.sendBuf
    requires Emitted(s) == s.delivered + s.sendBuf
    ensures Emitted(t) == t.delivered + t.sendBuf
  {
    AcceptedAppend(s.attempts, Attempt(e, ok));
    hide Accepted;
    assert Emitted(s) == Accepted(s.attempts) && Emitted(t) == Accepted(t.attempts);
  }

  lemma TakeStep(s: Session, step: Step)
    requires Inv(s) && (step == TakeInput || step == Consume)
    ensures ChannelInv(Apply(s, step))
  {
    hide Accepted;
    if step == TakeInput {
      assert s.recvBuf != [] ==> s.received + s.recvBuf == s.received + [s.recvBuf[0]] + s.recvBuf[1..];
    } else {
      assert s.sendBuf != [] ==> s.delivered + s.sendBuf == s.delivered + [s.sendBuf[0]] + s.sendBuf[1..];
    }
  }

  lemma ChannelStep(s: Session, step: Step)
    requires Inv(s)
    ensures ChannelInv(Apply(s, step))
  {
    match step
    case Enqueue => if s.pc.Sending? { AttemptStep(s, true); }
    case Abort => if s.pc.Sending? { AttemptStep(s, false); }
    case TakeInput => TakeStep(s, step);
    case Consume => TakeStep(s, step);
    case SendTerminal => if s.pc.Returned? { TerminalStep(s); }
    case _ =>
  }

  lemma SequenceStep(s: Session, step: Step)
    requires SequenceInv(s) && LifecycleInv(s)
    ensures SequenceInv(Apply(s, step))
  {
    var t := Apply(s, step);
    if step == Enqueue || step == Abort {
      assert forall k :: 0 <= k < |s.attempts| ==> t.attempts[k] == s.attempts[k];
    } else {
      assert t.attempts == s.attempts;
    }
  }

  lemma LifecycleStep(s: Session, step: Step)
    requires LifecycleInv(s)
    ensures LifecycleInv(Apply(s, step))
  {
  }

  lemma StepKeeps(s: Session, step: Step)
    requires Inv(s)
    ensures Inv(Apply(s, step))
  {
    hide Apply, ChannelInv, SequenceInv, LifecycleInv;
    ChannelStep(s, step);
    SequenceStep(s, step);
    LifecycleStep(s, step);
  }

  lemma {:induction false} ReachableInv(steps: seq<Step>)
    ensures Inv(Exec(START, steps))
  {
    if steps != [] {
      hide Apply, Inv;
      ReachableInv(steps[..|steps| - 1]);
      StepKeeps(Exec(START, steps[..|steps| - 1]), steps[|steps| - 1]);
    }
  }

  // ----- what the consumer sees

  ghost predicate Increasing(es: seq<Event>) {
    forall i, j :: 0 <= i < j < |es| ==> es[i].sequence < es[j].sequence
  }

  lemma {:induction false} AcceptedIncreasing(attempts: seq<Attempt>)
    requires forall k :: 0 <= k < |attempts| ==> attempts[k].event.sequence == k + 1
    ensures Increasing(Accepted(attempts))
    ensures forall e <- Accepted(attempts) :: 1 <= e.sequence <= |attempts|
    ensures forall e <- Accepted(attempts) :: Attempt(e, true) in attempts
  {
    if attempts != [] { AcceptedIncreasing(attempts[..|attempts| - 1]); }
  }

  /** At every moment of every run the consumer has received, in order, a prefix of what
      was put on the channel, and sequence numbers strictly increase along it.  An event's
      number is the position of its Send call, so a gap means an aborted Send. */
  lemma StreamPrefix(steps: seq<Step>)
    ensures var s := Exec(START, steps);
            && s.delivered <= Emitted(s)
            && Increasing(Emitted(s))
            && (forall e <- Emitted(s) :: e.origin == FromHandler ==>
                  1 <= e.sequence <= |s.attempts| && s.attempts[e.sequence - 1] == Attempt(e, true))
  {
    hide Apply, Exec;
    ReachableInv(steps);
    var s := Exec(START, steps);
    AcceptedIncreasing(s.attempts);
    forall e <- Emitted(s) | e.origin == FromHandler
      ensures 1 <= e.sequence <= |s.attempts| && s.attempts[e.sequence - 1] == Attempt(e, true)
    {
      assert e in Accepted(s.attempts);
    }
  }

  /** The handler outcome that the state remembers, if it has ended. */
  function Ended(s: Session): Option<Outcome> {
    if s.pc.Returned? then Some(s.pc.outcome)
    else match s.terminal
      case NotYet => None
      case Sent(_, outcome) => Some(outcome)
      case Dropped(outcome) => Some(outcome)
  }

  lemma EndedStep(s: Session, step: Step)
    requires LifecycleInv(s)
    ensures Ended(Apply(s, step)) == if step.Finish? && s.pc == Running then Some(step.outcome) else Ended(s)
  {
  }

  /** Step `k` is the one in which the handler finished, with this outcome. */
  predicate FinishedAt(steps: seq<Step>, k: nat, outcome: Outcome) {
    k < |steps| && steps[k] == Finish(outcome) && Exec(START, steps[..k]).pc == Running
  }

  lemma {:induction false} OutcomeFinished(steps: seq<Step>) returns (k: nat)
    ensures var e := Ended(Exec(START, steps)); e.Some? ==> FinishedAt(steps, k, e.value)
  {
    k := 0;
    if steps == [] {
      assert Ended(START) == None;
    } else {
      hide Apply, Ended, ChannelInv, SequenceInv, LifecycleInv;
      var n := |steps| - 1;
      ReachableInv(steps[..n]);
      var s, step := Exec(START, steps[..n]), steps[n];
      EndedStep(s, step);
      if step.Finish? && s.pc == Running {
        k := n;
      } else {
        k := OutcomeFinished(steps[..n]);
        hide Exec;
        assert k < n ==> steps[..n][..k] == steps[..k] && steps[..n][k] == steps[k];
      }
    }
  }

  /** When the channel has been closed and drained the consumer has received exactly the
      accepted events in order, followed by at most one event of RunHandler, which says how
      the handler finished: completed on nil, failed on an error or a panic.  That event is
      missing only if at least 100 events were accepted. */
  lemma StreamComplete(steps: seq<Step>)
    requires var s := Exec(START, steps); s.sendClosed && s.sendBuf == []
    ensures var s := Exec(START, steps);
            && s.delivered == Accepted(s.attempts) + TerminalPart(s.terminal)
            && (forall e <- Accepted(s.attempts) :: e.origin == FromHandler)
            && (s.terminal.Sent? || (s.terminal.Dropped? && |Accepted(s.attempts)| >= SEND_CAPACITY))
            && (exists k :: FinishedAt(steps, k, s.terminal.outcome))
            && (s.terminal.Sent? ==> s.terminal.event == TerminalEvent(s.terminal.outcome, |s.attempts| + 1))
            && s.onDoneRuns == 1
  {
    hide Apply, Exec;
    ReachableInv(steps);
    var k := OutcomeFinished(steps);
    var s := Exec(START, steps);
    AcceptedIncreasing(s.attempts);
    assert s.delivered + s.sendBuf == s.delivered;
    forall e <- Accepted(s.attempts) ensures e.origin == FromHandler {
      var k :| 0 <= k < |s.attempts| && s.attempts[k] == Attempt(e, true);
    }
  }

  /** The kind of the terminal event, and when it is dropped. */
  lemma TerminalKind(steps: seq<Step>)
    requires Exec(START, steps).pc.Returned?
    ensures var s := Exec(START, steps); var t := Apply(s, SendTerminal);
            && (t.terminal.Dropped? <==> |s.sendBuf| == SEND_CAPACITY)
            && (t.terminal.Sent? ==>
                  && (t.terminal.event.kind == Completed <==> s.pc.outcome == ReturnedNil)
                  && (t.terminal.event.kind == Failed <==> s.pc.outcome != ReturnedNil)
                  && t.terminal.event.sequence > |s.attempts|)
  {
    hide Exec;
    ReachableInv(steps);
  }

  /** Once sent or dropped, the terminal event never changes and nothing follows it. */
  lemma TerminalIsLast(steps: seq<Step>, step: Step)
    requires !Exec(START, steps).terminal.NotYet?
    ensures var s := Exec(START, steps);
            Apply(s, step).terminal == s.terminal && Emitted(Apply(s, step)) == Emitted(s)
  {
    hide Exec;
    ReachableInv(steps);
  }

  /** OnDone runs once, before the single close of the event channel. */
  lemma OnDoneBeforeClose(steps: seq<Step>)
    ensures var s := Exec(START, steps);
            && s.onDoneRuns <= 1
            && (s.sendClosed ==> s.onDoneRuns == 1 && !s.terminal.NotYet?)
            && (s.done ==> s.sendClosed)
            && (s.onDoneRuns == 1 ==> !HandlerActive(s.pc) && !s.terminal.NotYet?)
  {
    hide Exec, Apply;
    ReachableInv(steps);
  }

  // ----- waiting for the user

  /** Cancellation is for good, and nothing that was received or offered is taken back. */
  lemma StepGrows(s: Session, step: Step)
    ensures var t := Apply(s, step);
            s.received <= t.received && s.offered <= t.offered && (s.cancelled ==> t.cancelled)
  {
  }

  lemma {:induction false} RunGrows(s: Session, more: seq<Step>)
    ensures var t := Exec(s, more);
            s.received <= t.received && s.offered <= t.offered && (s.cancelled ==> t.cancelled)
  {
    if more != [] {
      hide Apply;
      RunGrows(s, more[..|more| - 1]);
      StepGrows(Exec(s, more[..|more| - 1]), more[|more| - 1]);
    }
  }

  /** The context is cancelled from the Cancel step on, whatever follows. */
  lemma CancelSticks(s: Session, more: seq<Step>)
    ensures Exec(Apply(s, Cancel), more).cancelled
  {
    assert Apply(s, Cancel).cancelled;
    RunGrows(Apply(s, Cancel), more);
  }

  /** A waiting receive ends only by taking the oldest user message or by cancellation. */
  lemma LeavesReceiving(s: Session, step: Step)
    requires s.pc == Receiving
    ensures var t := Apply(s, step);
            || t.pc == Receiving
            || (t.pc == Running && s.recvBuf != []
                && t.received == s.received + [s.recvBuf[0]] && s.recvBuf == [s.recvBuf[0]] + t.recvBuf)
            || (t.pc == Running && s.cancelled && t.received == s.received && t.recvBuf == s.recvBuf)
  {
  }

  /** The handler is still inside the RequestInput call that sends `e`. */
  predicate Asking(s: Session, e: Event) {
    || s.pc == Sending(e, true)
    || (s.pc == Receiving && |s.attempts| > 0 && s.attempts[|s.attempts| - 1] == Attempt(e, true))
  }

  lemma AskingStep(s: Session, e: Event, step: Step)
    requires Asking(s, e)
    ensures var t := Apply(s, step); Asking(t, e) || t.cancelled || |t.received| > |s.received|
  {
    if step == Enqueue {
      assert (s.attempts + [Attempt(e, true)])[|s.attempts|] == Attempt(e, true);
    }
  }

  lemma {:induction false} AskingRun(s: Session, e: Event, during: seq<Step>)
    requires Asking(s, e)
    ensures var t := Exec(s, during); Asking(t, e) || t.cancelled || |t.received| > |s.received|
  {
    if during != [] {
      hide Apply, Asking;
      var n := |during| - 1;
      AskingRun(s, e, during[..n]);
      var t := Exec(s, during[..n]);
      RunGrows(s, during[..n]);
      StepGrows(t, during[n]);
      if Asking(t, e) { AskingStep(t, e, during[n]); }
    }
  }

  lemma AskBegins(s: Session, prompt: string)
    requires s.pc == Running
    ensures Asking(Apply(s, Ask(prompt)), Event(RequestInput, Some(prompt), s.counter + 1, FromHandler))
    ensures Apply(s, Ask(prompt)).received == s.received
  {
  }

  /** In every run a RequestInput call is left only once a user message has been received
      since, or the session is cancelled; until then it sends its event or waits. */
  lemma AskWaits(steps: seq<Step>, prompt: string, during: seq<Step>)
    requires Exec(START, steps).pc == Running
    ensures var s, t := Exec(START, steps), Exec(Apply(Exec(START, steps), Ask(prompt)), during);
            var e := Event(RequestInput, Some(prompt), s.counter + 1, FromHandler);
            || t.pc == Sending(e, true)
            || (t.pc == Receiving && |t.attempts| > 0 && t.attempts[|t.attempts| - 1] == Attempt(e, true))
            || t.cancelled
            || |t.received| > |s.received|
  {
    var s := Exec(START, steps);
    hide Apply, Exec;
    AskBegins(s, prompt);
    AskingRun(Apply(s, Ask(prompt)), Event(RequestInput, Some(prompt), s.counter + 1, FromHandler), during);
  }

  /** The handler receives, in order, a prefix of the user messages that DeliverMessage accepted. */
  lemma InputPrefix(steps: seq<Step>)
    ensures var s := Exec(START, steps);
            s.received <= s.offered && |s.offered| - |s.received| <= RECV_CAPACITY
  {
    hide Exec, Apply;
    ReachableInv(steps);
  }
}
