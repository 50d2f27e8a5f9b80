/** The session object whose channels AgentStream describes.  A contract names the steps a
    call takes.  Send and Receive go as far as their select lets them: when no case is ready
    they leave the goroutine waiting in it, and TrySend and TryReceive are its next look. */
module AgentSession {
  import opened Wrappers
  import opened AgentStream

  /** How a select came out: its channel case, its cancellation case, or neither yet. */
  datatype Selected<T> = Ready(value: T) | Aborted | Blocked

  /** What the reader of the event channel sees. */
  datatype Next = Got(event: Event) | NothingYet | ChannelClosed

  class Channels {
    var counter: nat
    var sendBuf: seq<Event>
    var recvBuf: seq<string>
    var cancelled: bool
    var sendClosed: bool
    var done: bool
    var pc: Pc
    var onDoneRuns: nat
    ghost var attempts: seq<Attempt>
    ghost var terminal: Terminal
    ghost var delivered: seq<Event>
    ghost var offered: seq<string>
    ghost var received: seq<string>

    ghost function Snapshot(): Session
      reads this
    {
      Session(counter, sendBuf, recvBuf, cancelled, sendClosed, done, pc, onDoneRuns,
              attempts, terminal, delivered, offered, received)
    }

    ghost predicate Valid()
      reads this
    {
      Inv(Snapshot())
    }

    constructor ()
      ensures Valid() && Snapshot() == START
    {
      counter, sendBuf, recvBuf := 0, [], [];
      cancelled, sendClosed, done := false, false, false;
      pc, onDoneRuns := Running, 0;
      attempts, terminal, delivered, offered, received := [], NotYet, [], [], [];
      new;
      ReachableInv([]);
    }

    /** Number the event and enter the select. */
    method Send(kind: Kind, content: Option<string>) returns (r: Selected<nat>)
      requires Valid() && pc == Running
      modifies `counter, `sendBuf, `pc, `attempts
      ensures Valid()
      ensures r.Blocked? <==> old(|sendBuf|) == 100 && !cancelled
      ensures r.Ready? ==> old(|sendBuf|) < 100 && r.value == counter
      ensures r.Aborted? ==> cancelled
      ensures Snapshot() == Exec(old(Snapshot()), [Call(kind, content)] + SendChoice(r))
      ensures var e := Event(kind, content, counter, FromHandler);
              && counter == old(counter) + 1
              && sendBuf == (if r.Ready? then old(sendBuf) + [e] else old(sendBuf))
              && pc == (if r.Blocked? then Sending(e, false) else Running)
    {
      hide Inv, Apply, Exec;
      ghost var before := Snapshot();
      counter := counter + 1;
      pc := Sending(Event(kind, content, counter, FromHandler), false);
      CallStep(before, kind, content);
      r := TrySend();
      SendTrace(before, Call(kind, content), r);
    }

    /** The select of Send: enqueue if there is room or give up if the context is cancelled;
        when both are possible either may happen. */
    method TrySend() returns (r: Selected<nat>)
      requires Valid() && pc.Sending?
      modifies `sendBuf, `pc, `attempts
      ensures Valid()
      ensures r.Blocked? <==> old(|sendBuf|) == 100 && !cancelled
      ensures r.Ready? ==> old(|sendBuf|) < 100 && r.value == old(pc).event.sequence
      ensures r.Aborted? ==> cancelled
      ensures Snapshot() == AfterSend(old(Snapshot()), r)
      ensures sendBuf == if r.Ready? then old(sendBuf) + [old(pc).event] else old(sendBuf)
      ensures pc == if r.Blocked? then old(pc) else if r.Ready? && old(pc).thenReceive then Receiving else Running
    {
      hide Inv, Apply;
      SendStep(Snapshot());
      var e, thenReceive := pc.event, pc.thenReceive;
      var room := |sendBuf| < SEND_CAPACITY;
      if !room && !cancelled { return Blocked; }
      if room && cancelled { room := *; }
      attempts := attempts + [Attempt(e, room)];
      if room {
        sendBuf := sendBuf + [e];
        pc := if thenReceive then Receiving else Running;
        return Ready(e.sequence);
      }
      pc := Running;
      return Aborted;
    }

    /** Enter the select of Receive. */
    method Receive() returns (r: Selected<string>)
      requires Valid() && pc == Running
      modifies `recvBuf, `pc, `received
      ensures Valid()
      ensures r.Blocked? <==> old(recvBuf) == [] && !cancelled
      ensures r.Ready? ==> old(recvBuf) == [r.value] + recvBuf
      ensures r.Aborted? ==> cancelled
      ensures !r.Ready? ==> recvBuf == old(recvBuf)
      ensures Snapshot() == Exec(old(Snapshot()), [Wait] + ReceiveChoice(r))
      ensures pc == if r.Blocked? then Receiving else Running
    {
      hide Inv, Apply, Exec;
      ghost var before := Snapshot();
      pc := Receiving;
      WaitStep(before);
      r := TryReceive();
      ReceiveTrace(before, r);
    }

    /** The select of Receive: take the oldest user message, or fail if the context is
        cancelled. */
    method TryReceive() returns (r: Selected<string>)
      requires Valid() && pc == Receiving
      modifies `recvBuf, `pc, `received
      ensures Valid()
      ensures r.Blocked? <==> old(recvBuf) == [] && !cancelled
      ensures r.Ready? ==> old(recvBuf) == [r.value] + recvBuf
      ensures r.Aborted? ==> cancelled
      ensures !r.Ready? ==> recvBuf == old(recvBuf)
      ensures Snapshot() == AfterReceive(old(Snapshot()), r)
      ensures pc == if r.Blocked? then Receiving else Running
    {
      hide Inv, Apply;
      ReceiveStep(Snapshot());
      var take := recvBuf != [];
      if !take && !cancelled { return Blocked; }
      if take && cancelled { take := *; }
      pc := Running;
      if !take { return Aborted; }
      r := Ready(recvBuf[0]);
      received := received + [recvBuf[0]];
      recvBuf := recvBuf[1..];
    }

    /** Send the request-input event and, once it is accepted, wait for the user's answer;
        `sent` is whether it was accepted. */
    method RequestInput(prompt: string) returns (sent: bool, r: Selected<string>)
      requires Valid() && pc == Running
      modifies `counter, `sendBuf, `recvBuf, `pc, `attempts, `received
      ensures Valid()
      ensures Snapshot() == Exec(old(Snapshot()), [Ask(prompt)] + AskChoice(sent, r))
      ensures counter == old(counter) + 1
      ensures var e := Event(Kind.RequestInput, Some(prompt), counter, FromHandler);
              && sendBuf == (if sent then old(sendBuf) + [e] else old(sendBuf))
              && pc == (if !r.Blocked? then Running else if sent then Receiving else Sending(e, true))
      ensures sent ==> old(|sendBuf|) < 100
      ensures !sent ==> r.Aborted? || (r.Blocked? && old(|sendBuf|) == 100 && !cancelled)
      ensures sent && r.Blocked? ==> old(recvBuf) == [] && !cancelled
      ensures r.Ready? ==> sent && old(recvBuf) == [r.value] + recvBuf
      ensures !r.Ready? ==> recvBuf == old(recvBuf)
      ensures r.Aborted? ==> cancelled
    {
      hide Inv, Apply, Exec;
      ghost var before := Snapshot();
      counter := counter + 1;
      pc := Sending(Event(Kind.RequestInput, Some(prompt), counter, FromHandler), true);
      AskStep(before, prompt);
      var accepted := TrySend();
      ghost var middle := Snapshot();
      sent := accepted.Ready?;
      if sent {
        r := TryReceive();
      } else {
        r := if accepted.Aborted? then Aborted else Blocked;
      }
      AskTrace(before, prompt, accepted, r);
    }

    /** Cancel the context; a waiting send or receive may then give up. */
    method Cancel()
      requires Valid()
      modifies `cancelled
      ensures Valid() && cancelled
      ensures Snapshot() == Apply(old(Snapshot()), Step.Cancel)
    {
      StepKeeps(Snapshot(), Step.Cancel);
      cancelled := true;
    }

    /** One read of the event channel by its consumer: the oldest event first. */
    method ReadEvent() returns (n: Next)
      requires Valid()
      modifies `sendBuf, `delivered
      ensures Valid()
      ensures Snapshot() == Apply(old(Snapshot()), Consume)
      ensures n.Got? <==> old(sendBuf) != []
      ensures n.Got? ==> old(sendBuf) == [n.event] + sendBuf && delivered == old(delivered) + [n.event]
      ensures !n.Got? ==> sendBuf == [] && delivered == old(delivered) && (n.ChannelClosed? <==> sendClosed)
    {
      StepKeeps(Snapshot(), Consume);
      hide Inv;
      if sendBuf == [] { return if sendClosed then ChannelClosed else NothingYet; }
      n := Got(sendBuf[0]);
      delivered := delivered + [sendBuf[0]];
      sendBuf := sendBuf[1..];
    }

    /** Non-blocking delivery of a user message; refused when the channel is full. */
    method DeliverMessage(msg: string) returns (ok: bool)
      requires Valid()
      modifies `recvBuf, `offered
      ensures Valid()
      ensures Snapshot() == Apply(old(Snapshot()), Deliver(msg))
      ensures ok <==> old(|recvBuf|) < 100
      ensures recvBuf == if ok then old(recvBuf) + [msg] else old(recvBuf)
    {
      StepKeeps(Snapshot(), Deliver(msg));
      ok := |recvBuf| < RECV_CAPACITY;
      if ok { recvBuf, offered := recvBuf + [msg], offered + [msg]; }
    }

    /** The handler has returned or panicked: number the terminal event and enqueue it
        if there is room. */
    method EmitTerminal(outcome: Outcome)
      requires Valid() && pc == Running
      modifies `counter, `sendBuf, `pc, `terminal
      ensures Valid()
      ensures Snapshot() == Exec(old(Snapshot()), [Finish(outcome), SendTerminal])
      ensures counter == old(counter) + 1 && pc == Cleanup
      ensures var kind := if outcome == ReturnedNil then Completed else Failed;
              sendBuf == if old(|sendBuf|) < 100 then old(sendBuf) + [Event(kind, None, counter, FromRunner)]
                         else old(sendBuf)
    {
      hide Inv, Apply, Exec;
      ghost var before := Snapshot();
      counter := counter + 1;
      var e := TerminalEvent(outcome, counter);
      if |sendBuf| < SEND_CAPACITY {
        sendBuf, terminal := sendBuf + [e], Sent(e, outcome);
      } else {
        terminal := Dropped(outcome);
      }
      pc := Cleanup;
      TerminalSteps(before, outcome);
    }

    /** The deferred clean-up: the OnDone callback, then the two closes. */
    method CleanUp()
      requires Valid() && pc == Cleanup
      modifies `onDoneRuns, `sendClosed, `done, `pc
      ensures Valid()
      ensures Snapshot() == Exec(old(Snapshot()), [RunOnDone, CloseSend, CloseDone])
      ensures sendClosed && done && pc == Closed && onDoneRuns == 1
    {
      hide Inv, Apply, Exec;
      ghost var before := Snapshot();
      onDoneRuns, sendClosed, done, pc := onDoneRuns + 1, true, true, Closed;
      CleanUpSteps(before);
    }
  }

  function SendChoice(r: Selected<nat>): seq<Step> {
    match r case Ready(_) => [Enqueue] case Aborted => [Abort] case Blocked => []
  }

  function ReceiveChoice(r: Selected<string>): seq<Step> {
    match r case Ready(_) => [TakeInput] case Aborted => [AbortReceive] case Blocked => []
  }

  function AskChoice(sent: bool, r: Selected<string>): seq<Step> {
    if sent then [Enqueue] + ReceiveChoice(r) else if r.Aborted? then [Abort] else []
  }

  function AfterSend(s: Session, r: Selected<nat>): Session {
    match r case Ready(_) => Apply(s, Enqueue) case Aborted => Apply(s, Abort) case Blocked => s
  }

  function AfterReceive(s: Session, r: Selected<string>): Session {
    match r case Ready(_) => Apply(s, TakeInput) case Aborted => Apply(s, AbortReceive) case Blocked => s
  }

  lemma CallStep(s: Session, kind: Kind, content: Option<string>)
    requires Inv(s) && s.pc == Running
    ensures var t := BeginSend(s, kind, content, false); Apply(s, Call(kind, content)) == t && Inv(t)
    ensures |s.sendBuf| <= SEND_CAPACITY
  {
    StepKeeps(s, Call(kind, content));
    hide SequenceInv, LifecycleInv;
  }

  lemma SendStep(s: Session)
    requires Inv(s) && s.pc.Sending?
    ensures |s.sendBuf| <= SEND_CAPACITY
    ensures |s.sendBuf| < SEND_CAPACITY ==>
              var t := s.(sendBuf := s.sendBuf + [s.pc.event], attempts := s.attempts + [Attempt(s.pc.event, true)],
                          pc := if s.pc.thenReceive then Receiving else Running);
              Apply(s, Enqueue) == t && Inv(t)
    ensures s.cancelled ==>
              var t := s.(attempts := s.attempts + [Attempt(s.pc.event, false)], pc := Running);
              Apply(s, Abort) == t && Inv(t)
  {
    StepKeeps(s, Enqueue);
    StepKeeps(s, Abort);
    hide SequenceInv, LifecycleInv;
  }

  lemma AskStep(s: Session, prompt: string)
    requires Inv(s) && s.pc == Running
    ensures var t := BeginSend(s, RequestInput, Some(prompt), true); Apply(s, Ask(prompt)) == t && Inv(t)
  {
    StepKeeps(s, Ask(prompt));
    hide Inv;
  }

  lemma AskTrace(s: Session, prompt: string, accepted: Selected<nat>, r: Selected<string>)
    requires !accepted.Ready? ==> r == (if accepted.Aborted? then Aborted else Blocked)
    ensures var t := AfterSend(Apply(s, Ask(prompt)), accepted);
            Exec(s, [Ask(prompt)] + AskChoice(accepted.Ready?, r)) == if accepted.Ready? then AfterReceive(t, r) else t
  {
    hide Apply;
    SendTrace(s, Ask(prompt), accepted);
    if accepted.Ready? {
      var sent := [Ask(prompt), Enqueue];
      assert [Ask(prompt)] + [Enqueue] == sent && sent + [] == sent;
      assert [Ask(prompt)] + AskChoice(true, r) == sent + ReceiveChoice(r);
      ExecAppend(s, sent, TakeInput);
      ExecAppend(s, sent, AbortReceive);
    }
  }

  lemma SendTrace(s: Session, call: Step, r: Selected<nat>)
    ensures Exec(s, [call] + SendChoice(r)) == AfterSend(Apply(s, call), r)
  {
    hide Apply;
    assert [] + [call] == [call] && [call] + [] == [call];
    ExecAppend(s, [], call);
    ExecAppend(s, [call], Enqueue);
    ExecAppend(s, [call], Abort);
  }

  lemma WaitStep(s: Session)
    requires Inv(s) && s.pc == Running
    ensures Apply(s, Wait) == s.(pc := Receiving) && Inv(s.(pc := Receiving))
  {
    StepKeeps(s, Wait);
    hide Inv;
  }

  lemma ReceiveStep(s: Session)
    requires Inv(s) && s.pc == Receiving
    ensures s.recvBuf != [] ==>
              var t := s.(received := s.received + [s.recvBuf[0]], recvBuf := s.recvBuf[1..], pc := Running);
              Apply(s, TakeInput) == t && Inv(t)
    ensures s.cancelled ==> Apply(s, AbortReceive) == s.(pc := Running) && Inv(s.(pc := Running))
  {
    StepKeeps(s, TakeInput);
    StepKeeps(s, AbortReceive);
    hide Inv;
  }

  lemma ReceiveTrace(s: Session, r: Selected<string>)
    ensures Exec(s, [Wait] + ReceiveChoice(r)) == AfterReceive(Apply(s, Wait), r)
  {
    hide Apply;
    assert [] + [Wait] == [Wait] && [Wait] + [] == [Wait];
    ExecAppend(s, [], Wait);
    ExecAppend(s, [Wait], TakeInput);
    ExecAppend(s, [Wait], AbortReceive);
  }

  lemma TerminalSteps(s: Session, outcome: Outcome)
    requires Inv(s) && s.pc == Running
    ensures var e := TerminalEvent(outcome, s.counter + 1);
            var t := if |s.sendBuf| < SEND_CAPACITY
                     then s.(counter := s.counter + 1, sendBuf := s.sendBuf + [e],
                             terminal := Sent(e, outcome), pc := Cleanup)
                     else s.(counter := s.counter + 1, terminal := Dropped(outcome), pc := Cleanup);
            Exec(s, [Finish(outcome), SendTerminal]) == t && Inv(t)
  {
    hide Exec, Inv;
    ExecTwo(s, Finish(outcome), SendTerminal);
  }

  lemma CleanUpSteps(s: Session)
    requires Inv(s) && s.pc == Cleanup
    ensures s.onDoneRuns == 0
    ensures var t := s.(onDoneRuns := s.onDoneRuns + 1, sendClosed := true, done := true, pc := Closed);
            Exec(s, [RunOnDone, CloseSend, CloseDone]) == t && Inv(t)
  {
    NotDoneYet(s);
    CleanUpValues(s);
    hide Exec, Inv, Apply;
    ExecThree(s, RunOnDone, CloseSend, CloseDone);
  }

  lemma NotDoneYet(s: Session)
    requires Inv(s) && s.pc == Cleanup
    ensures s.onDoneRuns == 0
  {
    hide ChannelInv, SequenceInv;
  }

  lemma CleanUpValues(s: Session)
    requires s.pc == Cleanup
    ensures Apply(Apply(Apply(s, RunOnDone), CloseSend), CloseDone)
         == s.(onDoneRuns := s.onDoneRuns + 1, sendClosed := true, done := true, pc := Closed)
  {
  }

  lemma ExecAppend(s: Session, steps: seq<Step>, step: Step)
    ensures Exec(s, steps + [step]) == Apply(Exec(s, steps), step)
  {
    hide Apply;
    assert (steps + [step])[..|steps|] == steps;
  }

  lemma ExecTwo(s: Session, a: Step, b: Step)
    requires Inv(s)
    ensures Exec(s, [a, b]) == Apply(Apply(s, a), b) && Inv(Exec(s, [a, b]))
  {
    hide Apply, Inv;
    assert [] + [a] == [a] && [a] + [b] == [a, b];
    ExecAppend(s, [], a);
    ExecAppend(s, [a], b);
    StepKeeps(s, a);
    StepKeeps(Apply(s, a), b);
  }

  lemma ExecThree(s: Session, a: Step, b: Step, c: Step)
    requires Inv(s)
    ensures Exec(s, [a, b, c]) == Apply(Apply(Apply(s, a), b), c) && Inv(Exec(s, [a, b, c]))
  {
    hide Apply, Inv;
    assert [a, b] + [c] == [a, b, c];
    ExecTwo(s, a, b);
    ExecAppend(s, [a, b], c);
    StepKeeps(Exec(s, [a, b]), c);
  }
}
