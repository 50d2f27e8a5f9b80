/** A one-shot invocation: an agent session whose event channel is drained by a collector
    that concatenates messages and cancels the session when the handler asks for input.
    Nobody delivers user messages. */
module OneShot {
  import opened Wrappers
  import opened AgentStream

  const SEPARATOR := "\n\n"
  const NOTE := "[Note: This agent requires interactive mode. " +
                "It attempted to request user input, which is not supported in one-shot invocation. " +
                "Use an interactive agent session for full functionality.]"
  const FALLBACK := "Agent completed without producing a message."

  /** The collector's variables; `holding` is an event it has received but not yet handled. */
  datatype Collector = Collector(buf: string, inputRequested: bool, holding: Option<Event>)

  datatype State = State(session: Session, collector: Collector)

  datatype Move = Inner(step: Step) | Take | Handle

  const BEGIN := State(START, Collector("", false, None))

  function Content(e: Event): string {
    if e.kind == Message && e.content.Some? then e.content.value else ""
  }

  function ApplyMove(s: State, move: Move): State {
    match move
    case Inner(step) =>
      if step.Deliver? || step.Consume? then s else s.(session := Apply(s.session, step))
    case Take =>
      if s.session.sendBuf != [] && s.collector.holding == None then
        State(Apply(s.session, Consume), s.collector.(holding := Some(s.session.sendBuf[0])))
      else s
    case Handle =>
      if s.collector.holding == None then s
      else
        var e := s.collector.holding.value;
        if e.kind == RequestInput then
          State(Apply(s.session, Cancel), Collector(s.collector.buf, true, None))
        else s.(collector := s.collector.(buf := s.collector.buf + Content(e), holding := None))
  }

  function Run(moves: seq<Move>): State {
    if moves == [] then BEGIN else ApplyMove(Run(moves[..|moves| - 1]), moves[|moves| - 1])
  }

  predicate Final(s: State) {
    s.session.pc == Closed && s.session.sendBuf == [] && s.collector.holding == None
  }

  // ----- the response

  function Messages(es: seq<Event>): string {
    if es == [] then "" else Messages(es[..|es| - 1]) + Content(es[|es| - 1])
  }

  predicate Asks(es: seq<Event>) { exists e <- es :: e.kind == RequestInput }

  function Respond(content: string, inputRequested: bool): string {
    var noted :=
      if inputRequested then (if content != "" then content + SEPARATOR else content) + NOTE else content;
    if noted == "" then FALLBACK else noted
  }

  /** The collector's loop over the closed channel, and the text made from it. */
  method CollectResponse(events: seq<Event>) returns (response: string, inputRequested: bool)
    ensures inputRequested <==> exists e <- events :: e.kind == RequestInput
    ensures response == Respond(Messages(events), inputRequested)
    ensures response == (
              if inputRequested then (if Messages(events) == "" then NOTE else Messages(events) + "\n\n" + NOTE)
              else if Messages(events) == "" then "Agent completed without producing a message."
              else Messages(events))
  {
    var buf := "";
    inputRequested := false;
    for k := 0 to |events|
      invariant buf == Messages(events[..k])
      invariant inputRequested <==> Asks(events[..k])
    {
      assert events[..k + 1][..k] == events[..k];
      assert events[..k + 1] == events[..k] + [events[k]];
      var e := events[k];
      match e.kind {
        case Message => if e.content.Some? { buf := buf + e.content.value; }
        case RequestInput => inputRequested := true;
        case _ =>
      }
    }
    assert events[..|events|] == events;
    response := buf;
    if inputRequested {
      if response != "" { response := response + SEPARATOR; }
      response := response + NOTE;
    }
    if response == "" { response := FALLBACK; }
  }

  lemma {:induction false} MessagesConcat(a: seq<Event>, b: seq<Event>)
    ensures Messages(a + b) == Messages(a) + Messages(b)
  {
    if b == [] {
      assert a + b == a;
    } else {
      var n := |b| - 1;
      assert (a + b)[..|a + b| - 1] == a + b[..n];
      MessagesConcat(a, b[..n]);
    }
  }

  /** What the response is made of: no event, no text; a message with a content puts exactly
      that content in its place; any other event (thinking, tool calls, tokens, input
      requests, messages without a content) makes no difference wherever it stands. */
  lemma MessagesExactly(a: seq<Event>, e: Event, b: seq<Event>)
    ensures Messages([]) == ""
    ensures e.kind == Message && e.content.Some? ==>
              Messages(a + [e] + b) == Messages(a) + e.content.value + Messages(b)
    ensures e.kind != Message || e.content.None? ==> Messages(a + [e] + b) == Messages(a + b)
  {
    MessagesConcat(a + [e], b);
    MessagesConcat(a, b);
    assert (a + [e])[..|a|] == a;
  }

  // ----- invariant

  /** The events whose handling is complete. */
  function Handled(s: State): seq<Event>
    requires s.collector.holding.Some? ==> s.session.delivered != []
  {
    if s.collector.holding.Some? then s.session.delivered[..|s.session.delivered| - 1] else s.session.delivered
  }

  ghost predicate CollectorInv(s: State) {
    && (s.collector.holding.Some? ==>
          s.session.delivered != [] && s.collector.holding.value == s.session.delivered[|s.session.delivered| - 1])
    && s.collector.buf == Messages(Handled(s))
    && (s.collector.inputRequested <==> Asks(Handled(s)))
    && (s.collector.inputRequested ==> s.session.cancelled)
    && s.session.offered == []
  }

  lemma AsksAppend(es: seq<Event>, e: Event)
    ensures Asks(es + [e]) <==> Asks(es) || e.kind == RequestInput
    ensures Messages(es + [e]) == Messages(es) + Content(e)
  {
    assert (es + [e])[..|es|] == es;
    assert e in es + [e] && forall x <- es :: x in es + [e];
  }

  lemma StepFrame(s: Session, step: Step)
    requires !step.Deliver? && !step.Consume?
    ensures var t := Apply(s, step);
            t.delivered == s.delivered && t.offered == s.offered && (s.cancelled ==> t.cancelled)
  {
  }

  lemma TakeKeeps(s: State)
    requires Inv(s.session) && CollectorInv(s)
    ensures CollectorInv(ApplyMove(s, Take))
  {
    hide Apply, Inv, Messages, Asks;
    if s.session.sendBuf != [] {
      ConsumeFrame(s.session);
      var d := s.session.delivered;
      assert (d + [s.session.sendBuf[0]])[..|d|] == d;
    }
  }

  lemma HandleKeeps(s: State)
    requires Inv(s.session) && CollectorInv(s)
    ensures CollectorInv(ApplyMove(s, Handle))
  {
    hide Apply, Inv, Messages, Asks;
    CancelFrame(s.session);
    if s.collector.holding.Some? {
      var n := |s.session.delivered| - 1;
      assert s.session.delivered == s.session.delivered[..n] + [s.session.delivered[n]];
      AsksAppend(s.session.delivered[..n], s.session.delivered[n]);
    }
  }

  lemma MoveKeeps(s: State, move: Move)
    requires Inv(s.session) && CollectorInv(s)
    ensures Inv(ApplyMove(s, move).session) && CollectorInv(ApplyMove(s, move))
  {
    match move
    case Inner(step) =>
      hide Apply, Inv;
      StepKeeps(s.session, step);
      if !step.Deliver? && !step.Consume? { StepFrame(s.session, step); }
    case Take =>
      hide Apply, Inv, CollectorInv;
      StepKeeps(s.session, Consume);
      TakeKeeps(s);
    case Handle =>
      hide Apply, Inv, CollectorInv;
      StepKeeps(s.session, Cancel);
      HandleKeeps(s);
  }

  lemma ConsumeFrame(s: Session)
    requires s.sendBuf != []
    ensures var t := Apply(s, Consume);
            t.delivered == s.delivered + [s.sendBuf[0]] && t.offered == s.offered && t.cancelled == s.cancelled
  {
  }

  lemma CancelFrame(s: Session)
    ensures Apply(s, Cancel) == s.(cancelled := true)
  {
  }

  lemma {:induction false} ReachableMoves(moves: seq<Move>)
    ensures Inv(Run(moves).session) && CollectorInv(Run(moves))
  {
    if moves == [] {
      ReachableInv([]);
    } else {
      hide ApplyMove, CollectorInv, Inv;
      ReachableMoves(moves[..|moves| - 1]);
      MoveKeeps(Run(moves[..|moves| - 1]), moves[|moves| - 1]);
    }
  }

  /** When the invocation ends, in whatever interleaving, the response is made from the
      contents of the accepted messages in order and from whether an input request was
      accepted. */
  lemma FinalResponse(moves: seq<Move>)
    requires Final(Run(moves))
    ensures var s := Run(moves); var accepted := Accepted(s.session.attempts);
            && s.collector.buf == Messages(accepted)
            && (s.collector.inputRequested <==> Asks(accepted))
            && Respond(s.collector.buf, s.collector.inputRequested) == Respond(Messages(accepted), Asks(accepted))
  {
    hide ApplyMove, Run, Messages, Asks, Respond, SequenceInv;
    ReachableMoves(moves);
    var s := Run(moves).session;
    var accepted := Accepted(s.attempts);
    assert s.delivered + s.sendBuf == s.delivered;
    if s.terminal.Sent? {
      TerminalIsPlain(moves);
      AsksAppend(accepted, s.terminal.event);
    } else {
      assert accepted + [] == accepted;
    }
  }

  lemma {:induction false} TerminalIsPlain(moves: seq<Move>)
    ensures PlainTerminal(Run(moves).session)
  {
    if moves != [] {
      TerminalIsPlain(moves[..|moves| - 1]);
      PlainStep(Run(moves[..|moves| - 1]), moves[|moves| - 1]);
      hide ApplyMove, PlainTerminal;
    }
  }

  predicate PlainTerminal(s: Session) {
    s.terminal.Sent? ==> s.terminal.event.kind == Completed || s.terminal.event.kind == Failed
  }

  lemma PlainStep(s: State, move: Move)
    requires PlainTerminal(s.session)
    ensures PlainTerminal(ApplyMove(s, move).session)
  {
  }

  predicate EndsWith(s: string, suffix: string) {
    |suffix| <= |s| && s[|s| - |suffix|..] == suffix
  }

  /** What the text alone tells: the note ends it exactly when input was requested or the
      content ends with the note itself, it is the fallback text exactly when there is
      neither content nor note or the content is that text, and the content comes first. */
  lemma ResponseShape(content: string, inputRequested: bool)
    ensures var response := Respond(content, inputRequested);
            && content <= response && response != ""
            && (inputRequested && content != "" ==> response == content + "\n\n" + NOTE)
            && (EndsWith(response, NOTE) <==> inputRequested || EndsWith(content, NOTE))
            && (response == FALLBACK <==> !inputRequested && (content == "" || content == FALLBACK))
  {
  }

  /** The same of every finished invocation, in terms of what the handler had accepted. */
  lemma FinalShape(moves: seq<Move>)
    requires Final(Run(moves))
    ensures var s := Run(moves); var accepted := Accepted(s.session.attempts);
            var response := Respond(s.collector.buf, s.collector.inputRequested);
            && Messages(accepted) <= response
            && (Asks(accepted) && Messages(accepted) != "" ==> response == Messages(accepted) + "\n\n" + NOTE)
            && (EndsWith(response, NOTE) <==> Asks(accepted) || EndsWith(Messages(accepted), NOTE))
            && (response == FALLBACK <==>
                !Asks(accepted) && (Messages(accepted) == "" || Messages(accepted) == FALLBACK))
  {
    hide ApplyMove, Run, Respond, EndsWith;
    FinalResponse(moves);
    var accepted := Accepted(Run(moves).session.attempts);
    ResponseShape(Messages(accepted), Asks(accepted));
  }

  // ----- no invocation hangs

  /** No goroutine of the invocation can move: the handler's own code always can, an
      external cancellation does not count. */
  predicate Stuck(s: State) {
    && !Final(s)
    && s.session.pc != Running
    && ApplyMove(s, Take) == s && ApplyMove(s, Handle) == s
    && (forall step <- [Enqueue, Abort, TakeInput, AbortReceive, SendTerminal, RunOnDone, CloseSend, CloseDone] ::
          ApplyMove(s, Inner(step)) == s)
  }

  /** An invocation is stuck exactly when the handler waits for a message, the collector
      has nothing to do, and neither a cancellation nor an input request ever happened. */
  lemma StuckExactly(moves: seq<Move>)
    ensures var s := Run(moves);
            Stuck(s) <==>
            && s.session.pc == Receiving && !s.session.cancelled
            && s.session.sendBuf == [] && s.collector.holding == None
            && !Asks(Emitted(s.session))
  {
    hide Run;
    ReachableMoves(moves);
    StuckState(Run(moves));
  }

  lemma StuckState(s: State)
    requires Inv(s.session) && CollectorInv(s)
    ensures Stuck(s) <==>
            && s.session.pc == Receiving && !s.session.cancelled
            && s.session.sendBuf == [] && s.collector.holding == None
            && !Asks(Emitted(s.session))
  {
    hide Accepted, Messages, Asks, SequenceInv, LifecycleInv, Emitted;
    assert s.session.recvBuf == [];
    if s.session.sendBuf == [] && s.collector.holding == None {
      assert s.session.delivered + s.session.sendBuf == s.session.delivered;
      assert Handled(s) == Emitted(s.session);
    }
    if s.session.pc == Receiving && !s.session.cancelled && s.session.sendBuf == [] && s.collector.holding == None {
      QuietIsStuck(s);
    }
    if Stuck(s) {
      hide Stuck;
      MachineMoves(s);
    }
  }

  /** With the handler waiting and nothing to receive, take or handle, no step does anything. */
  lemma QuietIsStuck(s: State)
    requires s.session.pc == Receiving && !s.session.cancelled && s.session.recvBuf == []
    requires s.session.sendBuf == [] && s.collector.holding == None
    ensures Stuck(s)
  {
  }

  lemma MachineMoves(s: State)
    requires Stuck(s) && s.session.offered == [] && s.session.recvBuf == []
    ensures s.session.sendBuf == [] && s.collector.holding == None
    ensures s.session.pc == Receiving && !s.session.cancelled
  {
    var steps := [Enqueue, Abort, TakeInput, AbortReceive, SendTerminal, RunOnDone, CloseSend, CloseDone];
    assert ApplyMove(s, Take) == s && ApplyMove(s, Handle) == s;
    assert s.collector.holding == None && s.session.sendBuf == [];
    assert Enqueue == steps[0] && AbortReceive == steps[3] && SendTerminal == steps[4];
    assert RunOnDone == steps[5] && CloseSend == steps[6] && CloseDone == steps[7];
    assert ApplyMove(s, Inner(Enqueue)) == s && ApplyMove(s, Inner(AbortReceive)) == s;
    assert ApplyMove(s, Inner(SendTerminal)) == s && ApplyMove(s, Inner(RunOnDone)) == s;
    assert ApplyMove(s, Inner(CloseSend)) == s && ApplyMove(s, Inner(CloseDone)) == s;
  }

  /** A handler that only waits through RequestInput never hangs the invocation. */
  lemma NeverStuck(moves: seq<Move>)
    requires Inner(Wait) !in moves
    ensures !Stuck(Run(moves))
  {
    hide Run;
    StuckExactly(moves);
    WaitsAfterAsking(moves);
  }

  /** Without a bare Receive, a waiting handler has had an input request accepted. */
  lemma {:induction false} WaitsAfterAsking(moves: seq<Move>)
    requires Inner(Wait) !in moves
    ensures Asked(Run(moves).session)
  {
    if moves != [] {
      hide ApplyMove, Asked;
      var before, move := moves[..|moves| - 1], moves[|moves| - 1];
      WaitsAfterAsking(before);
      ReachableMoves(before);
      WaitsStep(Run(before), move);
    }
  }

  /** What WaitsAfterAsking keeps. */
  ghost predicate Asked(s: Session) {
    && (s.pc.Sending? && s.pc.thenReceive ==> s.pc.event.kind == RequestInput)
    && (s.pc == Receiving ==> Asks(Emitted(s)))
  }

  lemma EnqueueAsked(s: Session)
    requires LifecycleInv(s) && Asked(s) && s.pc.Sending?
    ensures Asked(Apply(s, Enqueue))
  {
    AcceptedAppend(s.attempts, Attempt(s.pc.event, true));
    AsksAppend(Accepted(s.attempts), s.pc.event);
    assert Emitted(s.(attempts := s.attempts + [Attempt(s.pc.event, true)]))
        == Accepted(s.attempts + [Attempt(s.pc.event, true)]);
  }

  lemma WaitsStep(s: State, move: Move)
    requires move != Inner(Wait) && LifecycleInv(s.session) && Asked(s.session)
    ensures Asked(ApplyMove(s, move).session)
  {
    if move == Inner(Enqueue) && s.session.pc.Sending? {
      EnqueueAsked(s.session);
    } else {
      hide Accepted, Asks, LifecycleInv;
    }
  }

  /** A bare Receive (as in RequestConfirmation) does hang it. */
  lemma BareReceiveHangs()
    ensures Stuck(Run([Inner(Wait)]))
  {
    StuckExactly([Inner(Wait)]);
    assert Run([]) == BEGIN;
    assert [Inner(Wait)][..0] == [];
    assert Run([Inner(Wait)]) == ApplyMove(BEGIN, Inner(Wait));
  }

  // ----- every invocation ends

  /** Machine steps still owed by the state. */
  function Owed(s: State): nat {
    2 * |s.session.sendBuf| + (if s.collector.holding.Some? then 1 else 0)
    + (if s.session.cancelled then 0 else 1)
    + match s.session.pc
      case Closed => 0
      case ClosingDone => 1
      case ClosingSend => 2
      case Cleanup => 3
      case Returned(_) => 6
      case Running => 7
      case Receiving => 8
      case Sending(_, _) => 11
  }

  function Actions(moves: seq<Move>): nat {
    if moves == [] then 0
    else
      var m := moves[|moves| - 1];
      Actions(moves[..|moves| - 1])
      + if Acts(m) then 1 else 0
  }

  /** How many moves of the run changed the state. */
  function Effective(moves: seq<Move>): nat {
    if moves == [] then 0
    else
      var before := moves[..|moves| - 1];
      Effective(before) + if Run(moves) != Run(before) then 1 else 0
  }

  /** Every run is finite: if the handler makes n calls of the session, at most 8 + 5n
      moves can change the state, whatever the interleaving. */
  lemma {:induction false} EveryRunEnds(moves: seq<Move>)
    ensures Effective(moves) + Owed(Run(moves)) <= 8 + 5 * Actions(moves)
  {
    if moves != [] {
      var before, move := moves[..|moves| - 1], moves[|moves| - 1];
      EveryRunEnds(before);
      OwedStep(Run(before), move);
    }
  }

  predicate Acts(move: Move) {
    move.Inner? && (move.step.Call? || move.step.Ask? || move.step.Wait?)
  }

  lemma OwedStep(s: State, move: Move)
    ensures var t := ApplyMove(s, move);
            if Acts(move) then Owed(t) <= Owed(s) + 4 else t == s || Owed(t) < Owed(s)
  {
    hide ApplyMove, Owed;
    match move
    case Inner(step) =>
      if Acts(move) {
        OwedCall(s, step);
      } else if step.SendTerminal? || step.Enqueue? {
        OwedSend(s, step);
      } else {
        OwedOther(s, step);
      }
    case Take => OwedCollector(s, move);
    case Handle => OwedCollector(s, move);
  }

  lemma OwedCall(s: State, step: Step)
    requires Acts(Inner(step))
    ensures Owed(ApplyMove(s, Inner(step))) <= Owed(s) + 4
  {
  }

  lemma OwedSend(s: State, step: Step)
    requires step.SendTerminal? || step.Enqueue?
    ensures var t := ApplyMove(s, Inner(step)); t == s || Owed(t) < Owed(s)
  {
  }

  lemma OwedOther(s: State, step: Step)
    requires !Acts(Inner(step)) && !step.SendTerminal? && !step.Enqueue?
    ensures var t := ApplyMove(s, Inner(step)); t == s || Owed(t) < Owed(s)
  {
  }

  lemma OwedCollector(s: State, move: Move)
    requires move == Take || move == Handle
    ensures var t := ApplyMove(s, move); t == s || Owed(t) < Owed(s)
  {
    hide Content;
  }
}
