/** The session manager as an object.  Each method is one or more uninterrupted critical
    sections; its contract says which steps of SessionProtocol it takes. */
module SessionManager {
  import opened SessionProtocol

  const DEFAULT_MAX_SESSIONS := 100

  datatype PolicyOutcome = CheckFailed | Denied | Allowed

  datatype EndpointView = EndpointView(isAgent: bool, policy: PolicyOutcome, hasHandler: bool)

  datatype Lookup = Missing | Found(endpoint: EndpointView)

  datatype StartResult =
    | EndpointNotFound | NotAnAgent | PolicyCheckFailed | AccessDenied | NoHandler | LimitReached
    | Started(index: nat)

  /** The checks StartSession makes before it touches the map. */
  predicate Startable(look: Lookup) {
    look.Found? && look.endpoint.isAgent && look.endpoint.policy == Allowed && look.endpoint.hasHandler
  }

  class AgentSessionManager {
    const maxSessions: nat
    var sessions: map<SessionId, nat>
    var spawned: seq<Session>
    var registry: set<SessionId>
    ghost var deregistered: multiset<SessionId>
    ghost var overwritten: multiset<SessionId>

    /** The protocol state seen between critical sections. */
    ghost function Snapshot(): State
      reads this
    {
      State(maxSessions, sessions, spawned, Free, registry, deregistered, overwritten)
    }

    ghost predicate Valid()
      reads this
    {
      Inv(Snapshot())
    }

    constructor (limit: int)
      ensures Snapshot() == Init(if limit <= 0 then DEFAULT_MAX_SESSIONS else limit)
      ensures maxSessions == if limit <= 0 then 100 else limit
      ensures sessions == map[] && spawned == [] && registry == {}
      ensures Valid()
    {
      maxSessions := if limit <= 0 then DEFAULT_MAX_SESSIONS else limit;
      sessions, spawned, registry := map[], [], {};
      deregistered, overwritten := multiset{}, multiset{};
      new;
      ReachableInv(maxSessions, []);
    }

    /** Insert, announce and launch a session, with nothing in between.  `announced` is whether
        the registrar takes the announcement; a failure is logged and changes nothing else. */
    method StartSession(id: SessionId, look: Lookup, announced: bool) returns (r: StartResult)
      requires Valid()
      modifies this
      ensures Valid()
      ensures r == EndpointNotFound <==> look.Missing?
      ensures r == NotAnAgent <==> look.Found? && !look.endpoint.isAgent
      ensures r == PolicyCheckFailed <==> look.Found? && look.endpoint.isAgent && look.endpoint.policy == CheckFailed
      ensures r == AccessDenied <==> look.Found? && look.endpoint.isAgent && look.endpoint.policy == Denied
      ensures r == NoHandler <==> && look.Found? && look.endpoint.isAgent
                                  && look.endpoint.policy == Allowed && !look.endpoint.hasHandler
      ensures r.Started? <==> Startable(look) && old(|sessions|) < maxSessions
      ensures r == LimitReached <==> Startable(look) && old(|sessions|) >= maxSessions
      ensures !r.Started? ==>
                && Snapshot() == old(Snapshot())
                && sessions == old(sessions) && spawned == old(spawned) && registry == old(registry)
      ensures r.Started? ==>
                && r.index == old(|spawned|)
                && Snapshot() == Exec(old(Snapshot()), [Start(id), Register(r.index, announced), Launch(r.index)])
                && sessions == old(sessions)[id := r.index]
                && spawned == old(spawned) + [Session(id, Running, false, false, announced, false)]
                && registry == (if announced then old(registry) + {id} else old(registry))
                && overwritten == old(overwritten) + (if id in old(sessions) then multiset{id} else multiset{})
      ensures deregistered == old(deregistered)
    {
      hide Apply, Exec, Inv;
      if look.Missing? { return EndpointNotFound; }
      if !look.endpoint.isAgent { return NotAnAgent; }
      if look.endpoint.policy == CheckFailed { return PolicyCheckFailed; }
      if look.endpoint.policy == Denied { return AccessDenied; }
      if !look.endpoint.hasHandler { return NoHandler; }
      if |sessions| >= maxSessions { return LimitReached; }
      ghost var before := Snapshot();
      var i := |spawned|;
      if id in sessions { overwritten := overwritten + multiset{id}; }
      sessions, spawned := sessions[id := i], spawned + [NewSession(id)];
      if announced { registry := registry + {id}; }
      spawned := spawned[i := NewSession(id).(phase := Running, announced := announced)];
      StartSteps(before, id, announced);
      ReplaceLast(before.spawned, NewSession(id), spawned[i]);
      assert spawned == before.spawned + [NewSession(id).(phase := Running, announced := announced)];
      assert Snapshot() == StartedState(before, id, announced);
      r := Started(i);
    }

    /** The OnDone callback of session `i`, whose handler has returned; `answered` is whether
        the registrar takes the deregistration, if there is one. */
    method OnDone(i: nat, answered: bool)
      requires Valid() && i < |spawned| && spawned[i].phase == Finished
      modifies this
      ensures Valid()
      ensures old(spawned[i].id in sessions) ==>
                Snapshot() == Exec(old(Snapshot()), [Untrack(i), Deregister(i, answered)])
      ensures old(spawned[i].id !in sessions) ==> Snapshot() == Exec(old(Snapshot()), [Untrack(i)])
      ensures var h := old(spawned[i]);
              && spawned == old(spawned)[i := h.(phase := Closing,
                 deregisterFailed := h.deregisterFailed || (h.id in old(sessions) && !answered))]
              && sessions == old(sessions) - {h.id}
              && registry == (if h.id in old(sessions) && answered then old(registry) - {h.id} else old(registry))
              && deregistered == old(deregistered) + (if h.id in old(sessions) then multiset{h.id} else multiset{})
      ensures overwritten == old(overwritten)
    {
      hide Apply, Exec, Inv;
      ghost var before := Snapshot();
      var id := spawned[i].id;
      var stillTracked := id in sessions;
      sessions := sessions - {id};
      var h := spawned[i];
      if stillTracked {
        if answered { registry := registry - {id}; }
        deregistered := deregistered + multiset{id};
        h := h.(deregisterFailed := h.deregisterFailed || !answered);
      }
      spawned := spawned[i := h.(phase := Closing)];
      OnDoneSteps(before, i, answered);
    }

    /** Cancel a tracked session; an unknown ID is an error and changes nothing. */
    method CancelSession(id: SessionId) returns (found: bool)
      requires Valid()
      modifies this
      ensures Valid()
      ensures found <==> id in old(sessions)
      ensures !found ==> Snapshot() == old(Snapshot())
      ensures found ==> Snapshot() == Apply(old(Snapshot()), Cancel(old(sessions)[id]))
      ensures found ==> var i := old(sessions)[id];
                        && i < old(|spawned|)
                        && spawned == old(spawned)[i := old(spawned)[i].(cancelled := true)]
      ensures !found ==> spawned == old(spawned)
      ensures sessions == old(sessions) && registry == old(registry)
      ensures deregistered == old(deregistered) && overwritten == old(overwritten)
    {
      found := id in sessions;
      if found {
        hide Inv;
        ghost var before := Snapshot();
        InvEntry(before, id);
        var i := sessions[id];
        spawned := spawned[i := spawned[i].(cancelled := true)];
        StepKeepsAll(before, Cancel(i));
      }
    }

    /** Shutdown: cancel, deregister and delete every tracked session. */
    method CancelAllSessions() returns (ghost trace: seq<Step>)
      requires Valid()
      modifies this
      ensures Valid()
      ensures Snapshot() == Exec(old(Snapshot()), trace)
      ensures sessions == map[] && overwritten == old(overwritten)
      ensures |spawned| == |old(spawned)|
      ensures forall id <- old(sessions) :: old(sessions)[id] < |spawned| && spawned[old(sessions)[id]].cancelled
      ensures forall i :: 0 <= i < |spawned| && spawned[i] != old(spawned)[i] ==>
                old(spawned)[i].id in old(sessions) && old(sessions)[old(spawned)[i].id] == i
      ensures forall i :: 0 <= i < |spawned| ==>
                spawned[i].id == old(spawned)[i].id && spawned[i].phase == old(spawned)[i].phase
      ensures forall id ::
                deregistered[id] == old(deregistered)[id] + (if id in old(sessions) then 1 else 0)
      ensures registry <= old(registry) <= registry + old(sessions).Keys
    {
      hide Apply, Exec, Inv, Drop, Swept, SweepNext, Removed;
      ghost var before := Snapshot();
      ghost var cur := before.(lock := Sweeping(sessions.Keys));
      trace := [SweepBegin];
      SweepSteps(before);
      SweptBegin(before);
      RemovedNothing(before, cur.lock);
      while sessions != map[]
        invariant Inv(cur) && cur == Exec(before, trace) && Swept(before, cur)
        invariant cur.lock.Sweeping? && Snapshot() == cur.(lock := Free) && Removed(before, cur)
        decreases sessions.Keys
      {
        var id :| id in sessions;
        var ok: bool := *;
        SweptVisit(before, cur, id, ok);
        SweepVisit(before, trace, cur, id, ok);
        SweepNextDrops(cur, id, ok);
        SweepNextRemoves(before, cur, id, ok);
        DropEntry(id, ok);
        cur := SweepNext(cur, id, ok);
        trace := trace + [Visit(id, ok)];
      }
      SweepEnd(before, trace, cur);
      SweptEnd(before, cur);
      trace := trace + [Unlock];
    }

    /** Reaper: drop exactly the tracked sessions that are cancelled or done. */
    method ReapStaleSessions() returns (reaped: nat, ghost trace: seq<Step>)
      requires Valid()
      modifies this
      ensures Valid()
      ensures Snapshot() == Exec(old(Snapshot()), trace)
      ensures |spawned| == old(|spawned|)
      ensures forall id <- old(sessions) :: old(sessions)[id] < |spawned|
      ensures forall id :: id in sessions <==>
                id in old(sessions)
                && !old(spawned)[old(sessions)[id]].cancelled && old(spawned)[old(sessions)[id]].phase != Closed
      ensures forall id <- sessions ::
                sessions[id] == old(sessions)[id] && spawned[sessions[id]] == old(spawned)[sessions[id]]
      ensures reaped + |sessions| == |old(sessions)| && overwritten == old(overwritten)
      ensures forall i :: 0 <= i < |spawned| ==>
                spawned[i].id == old(spawned)[i].id && spawned[i].phase == old(spawned)[i].phase
      ensures forall id :: deregistered[id] ==
                old(deregistered)[id] + (if id in old(sessions) && id !in sessions then 1 else 0)
      ensures registry <= old(registry) <= registry + (old(sessions).Keys - sessions.Keys)
    {
      ghost var before := Snapshot();
      var todo := sessions.Keys;
      trace := [ReapBegin];
      ghost var cur := before.(lock := Reaping(todo));
      ReapSteps(before);
      ScannedBegin(before);
      reaped := 0;
      RemovedNothing(before, cur.lock);
      hide Apply, Exec, Inv, Drop, Stale, Scanned, ReapNext, Removed;
      while todo != {}
        invariant Inv(cur) && cur == Exec(before, trace) && Scanned(before, cur)
        invariant cur.lock == Reaping(todo) && Snapshot() == cur.(lock := Free)
        invariant reaped + |sessions| == |before.sessions| && Removed(before, cur)
        decreases todo
      {
        var id :| id in todo;
        var ok: bool := *;
        ScannedVisit(before, cur, id, ok);
        ReapVisit(before, trace, cur, id, ok);
        ReapNextDrops(cur, id, ok);
        ReapNextRemoves(before, cur, id, ok);
        if spawned[sessions[id]].phase == Closed || spawned[sessions[id]].cancelled {
          DropEntry(id, ok);
          reaped := reaped + 1;
        }
        todo := todo - {id};
        cur := ReapNext(cur, id, ok);
        trace := trace + [Visit(id, ok)];
      }
      ReapEnd(before, trace, cur);
      ScannedEnd(before, cur);
      RemovedCounts(before, cur);
      trace := trace + [Unlock];
    }

    /** One loop body of the two sweeps: cancel, deregister, delete. */
    method DropEntry(id: SessionId, ok: bool)
      requires id in sessions && sessions[id] < |spawned|
      modifies this
      ensures Snapshot() == Drop(old(Snapshot()), id, ok)
      ensures |sessions| == |old(sessions)| - 1
      ensures sessions == old(sessions) - {id} && overwritten == old(overwritten)
      ensures var i := old(sessions)[id];
              var h := old(spawned)[i];
              spawned == old(spawned)[i := Session(h.id, h.phase, true, h.droppedEarly || h.phase == Inserted,
                                                   h.announced, h.deregisterFailed || !ok)]
      ensures registry == if ok then old(registry) - {id} else old(registry)
      ensures deregistered == old(deregistered) + multiset{id}
    {
      assert sessions == (sessions - {id})[id := sessions[id]];
      var i := sessions[id];
      spawned := spawned[i := Dropped(spawned[i], ok)];
      if ok { registry := registry - {id}; }
      deregistered := deregistered + multiset{id};
      sessions := sessions - {id};
    }
  }

  lemma ReplaceLast(ss: seq<Session>, a: Session, b: Session)
    ensures (ss + [a])[|ss| := b] == ss + [b]
  {
  }

  lemma StepKeepsAll(s: State, step: Step)
    requires Inv(s)
    ensures Inv(Apply(s, step)) && Apply(s, step).maxSessions == s.maxSessions
  {
    hide Apply, Conserved, TrackedWell;
    StepKeepsTracked(s, step);
    forall id { StepConserves(s, step, id); }
  }

  lemma InvEntry(s: State, id: SessionId)
    requires Inv(s) && id in s.sessions
    ensures Entry(s, id)
  {
  }

  function StartedState(s: State, id: SessionId, ok: bool): State {
    s.(sessions := s.sessions[id := |s.spawned|],
    spawned := s.spawned + [NewSession(id).(phase := Running, announced := ok)],
    registry := if ok then s.registry + {id} else s.registry,
    overwritten := s.overwritten + Once(id in s.sessions, id))
  }

  lemma StartSteps(s: State, id: SessionId, ok: bool)
    requires Inv(s) && Admits(s)
    ensures Exec(s, [Start(id), Register(|s.spawned|, ok), Launch(|s.spawned|)]) == StartedState(s, id, ok)
    ensures Inv(StartedState(s, id, ok))
  {
    var i := |s.spawned|;
    ExecThree(s, Start(id), Register(i, ok), Launch(i));
    StartValues(s, id, ok);
  }

  lemma StartValues(s: State, id: SessionId, ok: bool)
    requires Admits(s)
    ensures Apply(Apply(Apply(s, Start(id)), Register(|s.spawned|, ok)), Launch(|s.spawned|)) == StartedState(s, id, ok)
  {
    var i := |s.spawned|;
    var t := Apply(s, Start(id));
    var u := Apply(t, Register(i, ok));
    assert u.spawned == s.spawned + [NewSession(id).(phase := Registered, announced := ok)];
    assert Apply(u, Launch(i)).spawned == s.spawned + [NewSession(id).(phase := Running, announced := ok)];
  }

  lemma ExecThree(s: State, a: Step, b: Step, c: Step)
    requires Inv(s)
    ensures Exec(s, [a, b, c]) == Apply(Apply(Apply(s, a), b), c) && Inv(Exec(s, [a, b, c]))
  {
    hide Apply, Inv;
    assert [] + [a] == [a] && [a] + [b] == [a, b] && [a, b] + [c] == [a, b, c];
    ExecAppend(s, [], a);
    ExecAppend(s, [a], b);
    ExecAppend(s, [a, b], c);
    StepKeepsAll(s, a);
    StepKeepsAll(Apply(s, a), b);
    StepKeepsAll(Apply(Apply(s, a), b), c);
  }

  lemma SweepSteps(s: State)
    requires Inv(s) && s.lock == Free
    ensures var t := s.(lock := Sweeping(s.sessions.Keys)); Exec(s, [SweepBegin]) == t && Inv(t)
  {
    ExecAppend(s, [], SweepBegin);
    assert [] + [SweepBegin] == [SweepBegin];
    StepKeepsAll(s, SweepBegin);
  }

  /** The locked state after the sweep has dropped one more entry. */
  function SweepNext(s: State, id: SessionId, ok: bool): State
    requires id in s.sessions && s.sessions[id] < |s.spawned|
  {
    Drop(s, id, ok).(lock := Sweeping(s.sessions.Keys - {id}))
  }

  lemma SweepNextDrops(s: State, id: SessionId, ok: bool)
    requires id in s.sessions && s.sessions[id] < |s.spawned|
    ensures SweepNext(s, id, ok).lock.Sweeping?
    ensures SweepNext(s, id, ok).(lock := Free) == Drop(s.(lock := Free), id, ok)
    ensures SweepNext(s, id, ok).sessions.Keys == s.sessions.Keys - {id}
  {
  }

  lemma SweepVisit(s0: State, trace: seq<Step>, s: State, id: SessionId, ok: bool)
    requires Inv(s) && s.lock.Sweeping? && s == Exec(s0, trace) && id in s.sessions && s.sessions[id] < |s.spawned|
    ensures Exec(s0, trace + [Visit(id, ok)]) == SweepNext(s, id, ok) && Inv(SweepNext(s, id, ok))
  {
    hide Exec;
    assert (s.sessions - {id}).Keys == s.sessions.Keys - {id};
    ExecAppend(s0, trace, Visit(id, ok));
    StepKeepsAll(s, Visit(id, ok));
  }

  /** The sweep has dropped every entry of `b` that is no longer in `s`, and touched nothing else. */
  ghost predicate Swept(b: State, s: State) {
    && |s.spawned| == |b.spawned|
    && (forall id <- s.sessions :: id in b.sessions && s.sessions[id] == b.sessions[id])
    && (forall id <- b.sessions :: Entry(b, id) && (id in s.sessions || s.spawned[b.sessions[id]].cancelled))
    && (forall i :: 0 <= i < |s.spawned| && s.spawned[i] != b.spawned[i] ==>
          b.spawned[i].id in b.sessions && b.sessions[b.spawned[i].id] == i)
  }

  /** Each entry of `b` missing from `s` was deregistered once; no session was renamed or moved on. */
  ghost predicate Removed(b: State, s: State) {
    && s.overwritten == b.overwritten
    && s.sessions.Keys <= b.sessions.Keys
    && s.registry <= b.registry <= s.registry + (b.sessions.Keys - s.sessions.Keys)
    && (forall id :: s.deregistered[id] ==
                     b.deregistered[id] + (if id in b.sessions && id !in s.sessions then 1 else 0))
    && |s.spawned| == |b.spawned|
    && (forall i :: 0 <= i < |s.spawned| ==>
          s.spawned[i].id == b.spawned[i].id && s.spawned[i].phase == b.spawned[i].phase)
  }

  lemma RemovedNothing(s: State, lock: Lock)
    ensures Removed(s, s.(lock := lock))
  {
  }

  lemma RemovedDrop(b: State, s: State, id: SessionId, ok: bool, lock: Lock)
    requires Removed(b, s) && id in s.sessions && s.sessions[id] < |s.spawned|
    ensures Removed(b, Drop(s, id, ok).(lock := lock))
  {
    assert Drop(s, id, ok).sessions.Keys == s.sessions.Keys - {id};
  }

  lemma RemovedCounts(b: State, s: State)
    requires Removed(b, s)
    ensures s.overwritten == b.overwritten && s.sessions.Keys <= b.sessions.Keys && |s.spawned| == |b.spawned|
    ensures s.registry <= b.registry <= s.registry + (b.sessions.Keys - s.sessions.Keys)
    ensures forall id :: s.deregistered[id] ==
                         b.deregistered[id] + (if id in b.sessions && id !in s.sessions then 1 else 0)
    ensures forall i :: 0 <= i < |s.spawned| ==>
              s.spawned[i].id == b.spawned[i].id && s.spawned[i].phase == b.spawned[i].phase
  {
  }

  lemma SweptBegin(s: State)
    requires Inv(s)
    ensures Swept(s, s.(lock := Sweeping(s.sessions.Keys)))
  {
  }

  lemma SweptVisit(b: State, s: State, id: SessionId, ok: bool)
    requires Swept(b, s) && id in s.sessions
    ensures s.sessions[id] < |s.spawned| && Swept(b, SweepNext(s, id, ok))
  {
    assert Entry(b, id);
  }

  lemma SweptEnd(b: State, s: State)
    requires Swept(b, s) && Removed(b, s) && s.sessions == map[]
    ensures |s.spawned| == |b.spawned| && s.overwritten == b.overwritten
    ensures forall id <- b.sessions :: b.sessions[id] < |s.spawned| && s.spawned[b.sessions[id]].cancelled
    ensures forall i :: 0 <= i < |s.spawned| && s.spawned[i] != b.spawned[i] ==>
              b.spawned[i].id in b.sessions && b.sessions[b.spawned[i].id] == i
    ensures forall i :: 0 <= i < |s.spawned| ==>
              s.spawned[i].id == b.spawned[i].id && s.spawned[i].phase == b.spawned[i].phase
    ensures forall id :: s.deregistered[id] == b.deregistered[id] + (if id in b.sessions then 1 else 0)
    ensures s.registry <= b.registry <= s.registry + b.sessions.Keys
  {
  }

  lemma SweepEnd(s0: State, trace: seq<Step>, s: State)
    requires Inv(s) && s.lock.Sweeping? && s == Exec(s0, trace) && s.sessions == map[]
    ensures Exec(s0, trace + [Unlock]) == s.(lock := Free) && Inv(s.(lock := Free))
  {
    hide Exec;
    ExecAppend(s0, trace, Unlock);
    StepKeepsAll(s, Unlock);
  }

  lemma ReapSteps(s: State)
    requires Inv(s) && s.lock == Free
    ensures var t := s.(lock := Reaping(s.sessions.Keys)); Exec(s, [ReapBegin]) == t && Inv(t)
  {
    ExecAppend(s, [], ReapBegin);
    assert [] + [ReapBegin] == [ReapBegin];
    StepKeepsAll(s, ReapBegin);
  }

  /** The locked state after the reaper has looked at one more entry. */
  function ReapNext(s: State, id: SessionId, ok: bool): State
    requires id in s.sessions && s.sessions[id] < |s.spawned| && s.lock.Reaping?
  {
    (if Stale(s, id) then Drop(s, id, ok) else s).(lock := Reaping(s.lock.todo - {id}))
  }

  lemma ReapNextDrops(s: State, id: SessionId, ok: bool)
    requires id in s.sessions && s.sessions[id] < |s.spawned| && s.lock.Reaping?
    ensures ReapNext(s, id, ok).lock == Reaping(s.lock.todo - {id})
    ensures ReapNext(s, id, ok).(lock := Free)
         == if s.spawned[s.sessions[id]].phase == Closed || s.spawned[s.sessions[id]].cancelled
            then Drop(s.(lock := Free), id, ok) else s.(lock := Free)
  {
  }

  lemma SweepNextRemoves(b: State, s: State, id: SessionId, ok: bool)
    requires Removed(b, s) && id in s.sessions && s.sessions[id] < |s.spawned|
    ensures Removed(b, SweepNext(s, id, ok))
  {
    RemovedDrop(b, s, id, ok, Sweeping(s.sessions.Keys - {id}));
  }

  lemma ReapNextRemoves(b: State, s: State, id: SessionId, ok: bool)
    requires Removed(b, s) && id in s.sessions && s.sessions[id] < |s.spawned| && s.lock.Reaping?
    ensures Removed(b, ReapNext(s, id, ok))
  {
    hide Drop, Stale;
    RemovedDrop(b, s, id, ok, Reaping(s.lock.todo - {id}));
    if !Stale(s, id) { RemovedLock(b, s, Reaping(s.lock.todo - {id})); }
  }

  lemma RemovedLock(b: State, s: State, lock: Lock)
    requires Removed(b, s)
    ensures Removed(b, s.(lock := lock))
  {
  }

  lemma ReapVisit(s0: State, trace: seq<Step>, s: State, id: SessionId, ok: bool)
    requires Inv(s) && s.lock.Reaping? && s == Exec(s0, trace)
    requires id in s.lock.todo && id in s.sessions && s.sessions[id] < |s.spawned|
    ensures Exec(s0, trace + [Visit(id, ok)]) == ReapNext(s, id, ok) && Inv(ReapNext(s, id, ok))
  {
    hide Exec;
    ExecAppend(s0, trace, Visit(id, ok));
    StepKeepsAll(s, Visit(id, ok));
  }

  /** The reaper has decided every entry of `b` outside its to-do set; `s` is what it left. */
  ghost predicate Scanned(b: State, s: State) {
    && s.lock.Reaping?
    && s.lock.todo <= s.sessions.Keys <= b.sessions.Keys
    && (forall id <- s.sessions ::
          Entry(b, id) && Entry(s, id) && s.sessions[id] == b.sessions[id]
          && s.spawned[s.sessions[id]] == b.spawned[b.sessions[id]])
    && (forall id <- b.sessions :: Entry(b, id) && (id in s.sessions <==> id in s.lock.todo || !Stale(b, id)))
  }

  lemma ScannedBegin(s: State)
    requires Inv(s)
    ensures Scanned(s, s.(lock := Reaping(s.sessions.Keys)))
  {
    assert forall id <- s.sessions :: Entry(s, id);
  }

  lemma ScannedVisit(b: State, s: State, id: SessionId, ok: bool)
    requires Scanned(b, s) && id in s.lock.todo
    ensures id in s.sessions && Entry(s, id) && Scanned(b, ReapNext(s, id, ok))
  {
    assert Entry(s, id);
  }

  lemma ScannedEnd(b: State, s: State)
    requires Scanned(b, s) && s.lock == Reaping({})
    ensures forall id <- b.sessions :: b.sessions[id] < |b.spawned|
    ensures forall id :: id in s.sessions <==>
              id in b.sessions
              && !b.spawned[b.sessions[id]].cancelled && b.spawned[b.sessions[id]].phase != Closed
    ensures forall id <- s.sessions ::
              && s.sessions[id] == b.sessions[id] && s.sessions[id] < |s.spawned|
              && s.spawned[s.sessions[id]] == b.spawned[s.sessions[id]]
  {
  }

  lemma ReapEnd(s0: State, trace: seq<Step>, s: State)
    requires Inv(s) && s.lock == Reaping({}) && s == Exec(s0, trace)
    ensures Exec(s0, trace + [Unlock]) == s.(lock := Free) && Inv(s.(lock := Free))
  {
    hide Exec;
    ExecAppend(s0, trace, Unlock);
    StepKeepsAll(s, Unlock);
  }

  lemma OnDoneSteps(s: State, i: nat, ok: bool)
    requires Inv(s) && s.lock == Free && At(s, i, Finished)
    ensures var h := s.spawned[i];
            if h.id in s.sessions then
              var u := s.(sessions := s.sessions - {h.id},
                          spawned := s.spawned[i := h.(phase := Closing,
                                                       deregisterFailed := h.deregisterFailed || !ok)],
                          registry := if ok then s.registry - {h.id} else s.registry,
                          deregistered := s.deregistered + multiset{h.id});
              Exec(s, [Untrack(i), Deregister(i, ok)]) == u && Inv(u)
            else
              var t := s.(sessions := s.sessions - {h.id}, spawned := s.spawned[i := h.(phase := Closing)]);
              Exec(s, [Untrack(i)]) == t && Inv(t)
  {
    hide Exec, Inv;
    var h := s.spawned[i];
    assert [] + [Untrack(i)] == [Untrack(i)] && [Untrack(i)] + [Deregister(i, ok)] == [Untrack(i), Deregister(i, ok)];
    ExecNone(s);
    ExecAppend(s, [], Untrack(i));
    ExecAppend(s, [Untrack(i)], Deregister(i, ok));
    StepKeepsAll(s, Untrack(i));
    StepKeepsAll(Apply(s, Untrack(i)), Deregister(i, ok));
    var p := s.spawned[i := h.(phase := DeregisterPending)];
    var closed := h.(phase := Closing, deregisterFailed := h.deregisterFailed || !ok);
    assert p[i := closed] == s.spawned[i := closed];
  }

  lemma ExecNone(s: State)
    ensures Exec(s, []) == s
  {
  }
}
