/** The agent session life cycle as a state machine: every critical section of the
    manager's mutex, every registrar call and every goroutine transition is one step,
    and any interleaving of steps is a run.  The two long critical sections (the reaper
    and the shutdown sweep) advance one map entry at a time while they hold the lock,
    so handlers, cancellations and registrar calls may interleave with them. */
module SessionProtocol {
  type SessionId = string

  /** Where the goroutine that owns a session stands: between the map insertion and the
      registrar call, before the handler is spawned, in the handler, after it, inside
      OnDone with the deregistration still to come, before the channels close, closed. */
  datatype Phase = Inserted | Registered | Running | Finished | DeregisterPending | Closing | Closed

  /** `announced` records that its RegisterSession call succeeded, `deregisterFailed` that its
      DeregisterSession call did not, and `droppedEarly` that a sweep removed the session
      before RegisterSession ran. */
  datatype Session = Session(
    id: SessionId, phase: Phase, cancelled: bool, droppedEarly: bool, announced: bool, deregisterFailed: bool)

  function NewSession(id: SessionId): Session { Session(id, Inserted, false, false, false, false) }

  datatype Lock = Free | Reaping(todo: set<SessionId>) | Sweeping(todo: set<SessionId>)

  /** `spawned` lists every session ever inserted, oldest first; `sessions` maps an ID to
      its place in that list.  `registry` is what the external registry holds;
      `deregistered` counts the deregisterSession calls made per ID and `overwritten` the
      insertions that replaced a tracked entry. */
  datatype State = State(
    maxSessions: nat,
    sessions: map<SessionId, nat>,
    spawned: seq<Session>,
    lock: Lock,
    registry: set<SessionId>,
    deregistered: multiset<SessionId>,
    overwritten: multiset<SessionId>)

  /** `ok` is whether the registrar call of the step succeeds; without a registrar none does. */
  datatype Step =
    | Start(id: SessionId)
    | Register(i: nat, ok: bool)
    | Launch(i: nat)
    | Return(i: nat)
    | Untrack(i: nat)
    | Deregister(i: nat, ok: bool)
    | Close(i: nat)
    | Cancel(i: nat)
    | ReapBegin
    | SweepBegin
    | Visit(id: SessionId, ok: bool)
    | Unlock

  function Init(maxSessions: nat): State {
    State(maxSessions, map[], [], Free, {}, multiset{}, multiset{})
  }

  function Once(b: bool, id: SessionId): multiset<SessionId> {
    if b then multiset{id} else multiset{}
  }

  predicate At(s: State, i: nat, p: Phase) {
    i < |s.spawned| && s.spawned[i].phase == p
  }

  function Advance(s: State, i: nat, p: Phase): State
    requires i < |s.spawned|
  {
    s.(spawned := s.spawned[i := s.spawned[i].(phase := p)])
  }

  function Dropped(h: Session, ok: bool): Session {
    h.(cancelled := true, droppedEarly := h.droppedEarly || h.phase == Inserted,
    deregisterFailed := h.deregisterFailed || !ok)
  }

  /** Cancel, deregister and delete one tracked entry while holding the lock. */
  function Drop(s: State, id: SessionId, ok: bool): State
    requires id in s.sessions && s.sessions[id] < |s.spawned|
  {
    var i := s.sessions[id];
    var h := s.spawned[i];
    s.(sessions := s.sessions - {id},
    spawned := s.spawned[i := Dropped(h, ok)],
    registry := if ok then s.registry - {id} else s.registry,
    deregistered := s.deregistered + multiset{id})
  }

  predicate Stale(s: State, id: SessionId)
    requires id in s.sessions && s.sessions[id] < |s.spawned|
  {
    s.spawned[s.sessions[id]].phase == Closed || s.spawned[s.sessions[id]].cancelled
  }

  /** The StartSession critical section would insert: the lock is free and there is room. */
  predicate Admits(s: State) {
    s.lock == Free && |s.sessions| < s.maxSessions
  }

  /** One step; a step whose goroutine is not at that point, or that waits for the lock,
      leaves the state as it is. */
  function Apply(s: State, step: Step): State {
    match step
    case Start(id) =>
      if Admits(s) then
        s.(sessions := s.sessions[id := |s.spawned|],
        spawned := s.spawned + [NewSession(id)],
        overwritten := s.overwritten + Once(id in s.sessions, id))
      else s
    case Register(i, ok) =>
      if At(s, i, Inserted) then
        s.(spawned := s.spawned[i := s.spawned[i].(phase := Registered, announced := ok)],
        registry := if ok then s.registry + {s.spawned[i].id} else s.registry)
      else s
    case Launch(i) => if At(s, i, Registered) then Advance(s, i, Running) else s
    case Return(i) => if At(s, i, Running) then Advance(s, i, Finished) else s
    case Untrack(i) =>
      if At(s, i, Finished) && s.lock == Free then
        var id := s.spawned[i].id;
        var next := if id in s.sessions then DeregisterPending else Closing;
        Advance(s, i, next).(sessions := s.sessions - {id})
      else s
    case Deregister(i, ok) =>
      if At(s, i, DeregisterPending) then
        var h := s.spawned[i];
        s.(spawned := s.spawned[i := h.(phase := Closing, deregisterFailed := h.deregisterFailed || !ok)],
        registry := if ok then s.registry - {h.id} else s.registry,
        deregistered := s.deregistered + multiset{h.id})
      else s
    case Close(i) => if At(s, i, Closing) then Advance(s, i, Closed) else s
    case Cancel(i) =>
      if i < |s.spawned| then s.(spawned := s.spawned[i := s.spawned[i].(cancelled := true)]) else s
    case ReapBegin => if s.lock == Free then s.(lock := Reaping(s.sessions.Keys)) else s
    case SweepBegin => if s.lock == Free then s.(lock := Sweeping(s.sessions.Keys)) else s
    case Visit(id, ok) =>
      if !(id in s.sessions && s.sessions[id] < |s.spawned|) then s
      else (match s.lock
            case Free => s
            case Reaping(todo) =>
              if id !in todo then s
              else if Stale(s, id) then Drop(s, id, ok).(lock := Reaping(todo - {id}))
              else s.(lock := Reaping(todo - {id}))
            case Sweeping(todo) =>
              if id !in todo then s else Drop(s, id, ok).(lock := Sweeping(todo - {id})))
    case Unlock =>
      if s.lock == Reaping({}) || s.lock == Sweeping({}) then s.(lock := Free) else s
  }

  /** The state after a run of steps, in order, from the given state. */
  function Exec(s: State, steps: seq<Step>): State {
    if steps == [] then s else Apply(Exec(s, steps[..|steps| - 1]), steps[|steps| - 1])
  }

  /** How many sessions carry this ID; with `pending`, only those about to deregister. */
  function Count(ss: seq<Session>, id: SessionId, pending: bool): nat {
    if ss == [] then 0
    else Count(ss[..|ss| - 1], id, pending) + Matches(ss[|ss| - 1], id, pending)
  }

  function Matches(h: Session, id: SessionId, pending: bool): nat {
    if h.id == id && (pending ==> h.phase == DeregisterPending) then 1 else 0
  }

  function Inserts(s: State, id: SessionId): nat { Count(s.spawned, id, false) }

  function Pending(s: State, id: SessionId): nat { Count(s.spawned, id, true) }

  function Tracked(s: State, id: SessionId): nat { if id in s.sessions then 1 else 0 }

  /** Every insertion is accounted for exactly once: still in the map, removed by OnDone
      with the deregistration to come, deregistered, or overwritten in the map. */
  predicate Conserved(s: State, id: SessionId) {
    && Inserts(s, id) == Tracked(s, id) + Pending(s, id) + s.deregistered[id] + s.overwritten[id]
    && (s.overwritten[id] > 0 ==> Inserts(s, id) > s.overwritten[id])
  }

  predicate BeforeOnDone(p: Phase) { p.Inserted? || p.Registered? || p.Running? || p.Finished? }

  predicate Entry(s: State, id: SessionId)
    requires id in s.sessions
  {
    && s.sessions[id] < |s.spawned|
    && s.spawned[s.sessions[id]].id == id
    && BeforeOnDone(s.spawned[s.sessions[id]].phase)
  }

  ghost predicate TrackedWell(s: State) {
    && |s.sessions| <= s.maxSessions
    && (forall id <- s.sessions :: Entry(s, id))
    && (s.lock.Reaping? ==> s.lock.todo <= s.sessions.Keys)
    && (s.lock.Sweeping? ==> s.lock.todo == s.sessions.Keys)
  }

  ghost predicate Inv(s: State) {
    TrackedWell(s) && forall id :: Conserved(s, id)
  }

  // ----- counting sessions

  lemma {:induction false} CountUpdate(ss: seq<Session>, i: nat, t: Session, id: SessionId, pending: bool)
    requires i < |ss|
    ensures Count(ss[i := t], id, pending) + Matches(ss[i], id, pending)
         == Count(ss, id, pending) + Matches(t, id, pending)
  {
    var n := |ss| - 1;
    if i == n {
      assert ss[i := t][..n] == ss[..n];
    } else {
      assert ss[i := t][..n] == ss[..n][i := t];
      CountUpdate(ss[..n], i, t, id, pending);
    }
  }

  lemma CountAppend(ss: seq<Session>, t: Session, id: SessionId, pending: bool)
    ensures Count(ss + [t], id, pending) == Count(ss, id, pending) + Matches(t, id, pending)
  {
    assert (ss + [t])[..|ss|] == ss;
  }

  /** IDs never reused over the run: distinct sessions have distinct IDs. */
  ghost predicate Fresh(ss: seq<Session>) {
    forall i, j :: 0 <= i < j < |ss| ==> ss[i].id != ss[j].id
  }

  lemma {:induction false} CountFresh(ss: seq<Session>, i: nat, pending: bool)
    requires Fresh(ss) && i < |ss|
    ensures Count(ss, ss[i].id, pending) == Matches(ss[i], ss[i].id, pending)
  {
    var n := |ss| - 1;
    if i == n {
      CountAbsent(ss[..n], ss[n].id, pending);
    } else {
      CountFresh(ss[..n], i, pending);
    }
  }

  lemma {:induction false} CountAbsent(ss: seq<Session>, id: SessionId, pending: bool)
    requires forall h <- ss :: Matches(h, id, pending) == 0
    ensures Count(ss, id, pending) == 0
  {
    if ss != [] { CountAbsent(ss[..|ss| - 1], id, pending); }
  }

  // ----- every step keeps the invariant

  lemma StartKeepsTracked(s: State, id: SessionId)
    requires TrackedWell(s)
    ensures TrackedWell(Apply(s, Start(id)))
  {
    if Admits(s) && id in s.sessions { assert Apply(s, Start(id)).sessions.Keys == s.sessions.Keys; }
  }

  lemma UntrackKeepsTracked(s: State, i: nat)
    requires TrackedWell(s)
    ensures TrackedWell(Apply(s, Untrack(i)))
  {
    if At(s, i, Finished) && s.lock == Free {
      var id := s.spawned[i].id;
      RemoveKeepsTracked(s, id);
      ReplaceUntracked(s.(sessions := s.sessions - {id}), i, if id in s.sessions then DeregisterPending else Closing);
      hide TrackedWell;
    }
  }

  lemma RemoveKeepsTracked(s: State, id: SessionId)
    requires TrackedWell(s) && s.lock == Free
    ensures TrackedWell(s.(sessions := s.sessions - {id}))
  {
    MapShrinks(s.sessions, id);
  }

  lemma ReplaceUntracked(s: State, i: nat, p: Phase)
    requires TrackedWell(s) && i < |s.spawned| && s.spawned[i].id !in s.sessions
    ensures TrackedWell(Advance(s, i, p))
  {
    assert forall id <- s.sessions :: Entry(s, id) && s.sessions[id] != i;
  }

  lemma VisitKeepsTracked(s: State, id: SessionId, ok: bool)
    requires TrackedWell(s)
    ensures TrackedWell(Apply(s, Visit(id, ok)))
  {
    if id in s.sessions {
      MapShrinks(s.sessions, id);
      assert Entry(s, id);
    }
  }

  lemma ReplaceKeepsTracked(s: State, i: nat, h: Session)
    requires TrackedWell(s) && i < |s.spawned| && h.id == s.spawned[i].id
    requires BeforeOnDone(s.spawned[i].phase) ==> BeforeOnDone(h.phase)
    ensures TrackedWell(s.(spawned := s.spawned[i := h]))
  {
  }

  /** A step of session `i` itself, or a cancellation of it. */
  predicate Moves(step: Step, i: nat) {
    match step
    case Register(j, _) => j == i
    case Launch(j) => j == i
    case Return(j) => j == i
    case Untrack(j) => j == i
    case Deregister(j, _) => j == i
    case Close(j) => j == i
    case Cancel(j) => j == i
    case _ => false
  }

  lemma MoveKeepsTracked(s: State, step: Step, i: nat)
    requires TrackedWell(s)
    requires Moves(step, i) && !step.Untrack?
    ensures TrackedWell(Apply(s, step))
  {
    if i < |s.spawned| {
      var t := Apply(s, step);
      ReplaceKeepsTracked(s, i, t.spawned[i]);
    }
  }

  lemma LockKeepsTracked(s: State, step: Step)
    requires TrackedWell(s) && (step.ReapBegin? || step.SweepBegin? || step.Unlock?)
    ensures TrackedWell(Apply(s, step))
  {
  }

  lemma StepKeepsLimit(s: State, step: Step)
    ensures Apply(s, step).maxSessions == s.maxSessions
  {
  }

  lemma StepKeepsTracked(s: State, step: Step)
    requires TrackedWell(s)
    ensures TrackedWell(Apply(s, step)) && Apply(s, step).maxSessions == s.maxSessions
  {
    hide Apply, TrackedWell;
    StepKeepsLimit(s, step);
    match step
    case Start(id) => StartKeepsTracked(s, id);
    case Untrack(i) => UntrackKeepsTracked(s, i);
    case Visit(id, ok) => VisitKeepsTracked(s, id, ok);
    case Register(i, _) => MoveKeepsTracked(s, step, i);
    case Launch(i) => MoveKeepsTracked(s, step, i);
    case Return(i) => MoveKeepsTracked(s, step, i);
    case Deregister(i, _) => MoveKeepsTracked(s, step, i);
    case Close(i) => MoveKeepsTracked(s, step, i);
    case Cancel(i) => MoveKeepsTracked(s, step, i);
    case ReapBegin => LockKeepsTracked(s, step);
    case SweepBegin => LockKeepsTracked(s, step);
    case Unlock => LockKeepsTracked(s, step);
  }

  lemma MapShrinks(m: map<SessionId, nat>, id: SessionId)
    ensures |m - {id}| <= |m| && (m - {id}).Keys == m.Keys - {id}
  {
    if id in m {
      assert m == (m - {id})[id := m[id]];
    } else {
      assert m == m - {id};
    }
  }

  lemma ReplaceConserves(s: State, i: nat, h: Session, id: SessionId)
    requires i < |s.spawned| && h.id == s.spawned[i].id
    ensures Count(s.spawned[i := h], id, false) == Inserts(s, id)
    ensures Count(s.spawned[i := h], id, true) + Matches(s.spawned[i], id, true)
         == Pending(s, id) + Matches(h, id, true)
  {
    CountUpdate(s.spawned, i, h, id, false);
    CountUpdate(s.spawned, i, h, id, true);
  }

  lemma VisitConserves(s: State, x: SessionId, ok: bool, id: SessionId)
    requires TrackedWell(s) && Conserved(s, id)
    ensures Conserved(Apply(s, Visit(x, ok)), id)
  {
    if x in s.sessions {
      assert Entry(s, x);
      var i := s.sessions[x];
      ReplaceConserves(s, i, Drop(s, x, ok).spawned[i], id);
    }
  }

  lemma StepConserves(s: State, step: Step, id: SessionId)
    requires TrackedWell(s) && Conserved(s, id)
    ensures Conserved(Apply(s, step), id)
  {
    match step
    case Start(x) =>
      CountAppend(s.spawned, NewSession(x), id, false);
      CountAppend(s.spawned, NewSession(x), id, true);
    case Visit(x, ok) => VisitConserves(s, x, ok, id);
    case Register(i, _) => MoveConserves(s, step, i, id);
    case Launch(i) => MoveConserves(s, step, i, id);
    case Return(i) => MoveConserves(s, step, i, id);
    case Untrack(i) => MoveConserves(s, step, i, id);
    case Deregister(i, _) => MoveConserves(s, step, i, id);
    case Close(i) => MoveConserves(s, step, i, id);
    case Cancel(i) => MoveConserves(s, step, i, id);
    case _ =>
  }

  lemma MoveConserves(s: State, step: Step, i: nat, id: SessionId)
    requires Conserved(s, id)
    requires Moves(step, i)
    ensures Conserved(Apply(s, step), id)
  {
    if i < |s.spawned| {
      var t := Apply(s, step);
      assert t.spawned == s.spawned[i := t.spawned[i]];
      ReplaceConserves(s, i, t.spawned[i], id);
    }
  }

  /** In every reachable state of every interleaving the map respects its limit and every
      insertion is accounted for exactly once, whatever IDs the clients choose. */
  lemma {:induction false} ReachableInv(maxSessions: nat, steps: seq<Step>)
    ensures Inv(Exec(Init(maxSessions), steps))
    ensures Exec(Init(maxSessions), steps).maxSessions == maxSessions
  {
    if steps != [] {
      hide Apply, Inv, Init, Conserved, TrackedWell;
      var before, step := steps[..|steps| - 1], steps[|steps| - 1];
      ReachableInv(maxSessions, before);
      var s := Exec(Init(maxSessions), before);
      StepKeepsTracked(s, step);
      forall id { StepConserves(s, step, id); }
    }
  }

  // ----- when every session is deregistered exactly once

  /** With IDs that are never reused, a session is at every moment in exactly one of the
      places: tracked, about to be deregistered, deregistered once; and once its channels
      are closing it has been deregistered exactly once. */
  lemma ExactlyOnce(maxSessions: nat, steps: seq<Step>, i: nat)
    requires var s := Exec(Init(maxSessions), steps); i < |s.spawned| && Fresh(s.spawned)
    ensures var s := Exec(Init(maxSessions), steps); var h := s.spawned[i];
            && s.deregistered[h.id] + Tracked(s, h.id) + (if h.phase == DeregisterPending then 1 else 0) == 1
            && (h.phase in {Closing, Closed} ==> h.id !in s.sessions && s.deregistered[h.id] == 1)
  {
    var s := Exec(Init(maxSessions), steps);
    ReachableInv(maxSessions, steps);
    CountFresh(s.spawned, i, false);
    CountFresh(s.spawned, i, true);
    var id := s.spawned[i].id;
    assert Conserved(s, id);
    assert id in s.sessions ==> Entry(s, id) && s.sessions[id] == i;
  }

  /** A Start step that would replace a tracked entry. */
  predicate Clobbers(s: State, step: Step) {
    step.Start? && Admits(s) && step.id in s.sessions
  }

  ghost predicate NeverClobbers(s: State, steps: seq<Step>) {
    forall k :: 0 <= k < |steps| ==> !Clobbers(Exec(s, steps[..k]), steps[k])
  }

  ghost predicate AllAccounted(s: State) {
    forall id :: Inserts(s, id) == Tracked(s, id) + Pending(s, id) + s.deregistered[id]
  }

  lemma AccountedUnlessOverwritten(s: State)
    requires Inv(s)
    ensures AllAccounted(s) <==> s.overwritten == multiset{}
  {
    if s.overwritten != multiset{} {
      var id :| id in s.overwritten;
      assert Conserved(s, id);
    } else {
      forall id ensures Inserts(s, id) == Tracked(s, id) + Pending(s, id) + s.deregistered[id] {
        assert Conserved(s, id);
      }
    }
  }

  /** Insertions equal tracked + pending + deregistered for every ID exactly in the runs
      where no session is started under an ID that is tracked at that moment. */
  lemma ConservationExactly(maxSessions: nat, steps: seq<Step>)
    ensures AllAccounted(Exec(Init(maxSessions), steps)) <==> NeverClobbers(Init(maxSessions), steps)
  {
    hide Apply, Exec, Inv, AllAccounted, NeverClobbers;
    ReachableInv(maxSessions, steps);
    OverwrittenCount(maxSessions, steps);
    AccountedUnlessOverwritten(Exec(Init(maxSessions), steps));
  }

  lemma {:induction false} OverwrittenCount(maxSessions: nat, steps: seq<Step>)
    ensures Exec(Init(maxSessions), steps).overwritten == multiset{}
       <==> NeverClobbers(Init(maxSessions), steps)
  {
    if steps != [] {
      hide Apply, Exec, Clobbers, Init, NeverClobbers;
      var n := |steps| - 1;
      OverwrittenCount(maxSessions, steps[..n]);
      assert steps[..n] + [steps[n]] == steps;
      ExecAppend(Init(maxSessions), steps[..n], steps[n]);
      OverwrittenStep(Exec(Init(maxSessions), steps[..n]), steps[n]);
      NeverClobbersSplit(Init(maxSessions), steps);
    } else {
      hide Apply, Clobbers;
    }
  }

  lemma NeverClobbersSplit(s: State, steps: seq<Step>)
    requires steps != []
    ensures var n := |steps| - 1;
            NeverClobbers(s, steps) <==> NeverClobbers(s, steps[..n]) && !Clobbers(Exec(s, steps[..n]), steps[n])
  {
    hide Apply, Exec, Clobbers;
    var n := |steps| - 1;
    assert forall k :: 0 <= k < n ==> steps[..n][..k] == steps[..k] && steps[..n][k] == steps[k];
    if NeverClobbers(s, steps[..n]) && !Clobbers(Exec(s, steps[..n]), steps[n]) {
      forall k | 0 <= k < |steps| ensures !Clobbers(Exec(s, steps[..k]), steps[k]) {
        if k < n { assert !Clobbers(Exec(s, steps[..n][..k]), steps[..n][k]); }
      }
    }
    if NeverClobbers(s, steps) {
      forall k | 0 <= k < n ensures !Clobbers(Exec(s, steps[..n][..k]), steps[..n][k]) {
        assert !Clobbers(Exec(s, steps[..k]), steps[k]);
      }
    }
  }

  lemma OverwrittenStep(s: State, step: Step)
    ensures Apply(s, step).overwritten == multiset{} <==> s.overwritten == multiset{} && !Clobbers(s, step)
  {
    if Clobbers(s, step) { assert Apply(s, step).overwritten[step.id] > 0; }
  }

  /** When every spawned handler has closed its channels, nothing is left in the map and
      the deregistrations are exactly the insertions that were not overwritten. */
  lemma AllClosedMeansAllDeregistered(maxSessions: nat, steps: seq<Step>)
    requires forall h <- Exec(Init(maxSessions), steps).spawned :: h.phase == Closed
    ensures var s := Exec(Init(maxSessions), steps);
            s.sessions == map[] && forall id :: Inserts(s, id) == s.deregistered[id] + s.overwritten[id]
  {
    var s := Exec(Init(maxSessions), steps);
    ReachableInv(maxSessions, steps);
    assert forall id <- s.sessions :: Entry(s, id) && s.spawned[s.sessions[id]] in s.spawned;
    assert s.sessions.Keys == {};
    forall id ensures Inserts(s, id) == s.deregistered[id] + s.overwritten[id] {
      CountAbsent(s.spawned, id, true);
      assert Conserved(s, id);
    }
  }

  /** The reaper only ever drops cancelled sessions: a session whose done channel is
      closed is never found in the map. */
  lemma ReaperFindsNoClosedSession(maxSessions: nat, steps: seq<Step>, id: SessionId)
    requires id in Exec(Init(maxSessions), steps).sessions
    ensures var s := Exec(Init(maxSessions), steps);
            && s.sessions[id] < |s.spawned|
            && BeforeOnDone(s.spawned[s.sessions[id]].phase)
            && (Stale(s, id) <==> s.spawned[s.sessions[id]].cancelled)
  {
    ReachableInv(maxSessions, steps);
    assert Entry(Exec(Init(maxSessions), steps), id);
  }

  /** A session leaves the map only through its own OnDone, or cancelled: either it was
      cancelled already when the reaper saw it, or the shutdown sweep cancelled it. */
  lemma LeavesMapOnly(maxSessions: nat, steps: seq<Step>, step: Step, id: SessionId)
    requires id in Exec(Init(maxSessions), steps).sessions
    requires id !in Apply(Exec(Init(maxSessions), steps), step).sessions
    ensures var s := Exec(Init(maxSessions), steps); var t := Apply(s, step); var i := s.sessions[id];
            && i < |s.spawned| == |t.spawned|
            && ((step.Untrack? && At(s, step.i, Finished) && s.spawned[step.i].id == id)
                || (t.spawned[i].cancelled && (s.spawned[i].cancelled || s.lock.Sweeping?)))
  {
    hide Exec, Init, Conserved;
    ReachableInv(maxSessions, steps);
    assert Entry(Exec(Init(maxSessions), steps), id);
  }

  /** When the shutdown sweep is about to unlock, the map is empty. */
  lemma SweepEmpties(maxSessions: nat, steps: seq<Step>)
    requires Exec(Init(maxSessions), steps).lock == Sweeping({})
    ensures Exec(Init(maxSessions), steps).sessions == map[]
  {
    hide Exec, Init, Apply;
    ReachableInv(maxSessions, steps);
  }

  // ----- cancellation

  /** One step of a session's own life: what may follow each phase. */
  predicate Follows(p: Phase, q: Phase) {
    match p
    case Inserted => q == Registered
    case Registered => q == Running
    case Running => q == Finished
    case Finished => q == DeregisterPending || q == Closing
    case DeregisterPending => q == Closing
    case Closing => q == Closed
    case Closed => false
  }

  /** No step removes, renames or un-cancels a session, or takes it anywhere but to its next phase. */
  lemma StepKeepsSession(s: State, step: Step, i: nat)
    requires i < |s.spawned|
    ensures var t := Apply(s, step);
            && i < |t.spawned|
            && t.spawned[i].id == s.spawned[i].id
            && (s.spawned[i].cancelled ==> t.spawned[i].cancelled)
            && (t.spawned[i].phase == s.spawned[i].phase || Follows(s.spawned[i].phase, t.spawned[i].phase))
  {
    if step.Visit? {
      VisitKeepsSession(s, step.id, step.ok, i);
    } else if step.Start? || step.ReapBegin? || step.SweepBegin? || step.Unlock? {
      assert Apply(s, step).spawned[..|s.spawned|] == s.spawned;
    } else {
      assert Moves(step, step.i);
      MoveKeepsSession(s, step, i);
    }
  }

  lemma MoveKeepsSession(s: State, step: Step, i: nat)
    requires i < |s.spawned| && exists j: nat :: Moves(step, j)
    ensures var t := Apply(s, step);
            && i < |t.spawned|
            && t.spawned[i].id == s.spawned[i].id
            && (s.spawned[i].cancelled ==> t.spawned[i].cancelled)
            && (t.spawned[i].phase == s.spawned[i].phase || Follows(s.spawned[i].phase, t.spawned[i].phase))
  {
  }

  lemma VisitKeepsSession(s: State, id: SessionId, ok: bool, i: nat)
    requires i < |s.spawned|
    ensures var t := Apply(s, Visit(id, ok));
            && i < |t.spawned|
            && t.spawned[i].id == s.spawned[i].id && t.spawned[i].phase == s.spawned[i].phase
            && (s.spawned[i].cancelled ==> t.spawned[i].cancelled)
  {
  }

  lemma {:induction false} RunKeepsSession(s: State, more: seq<Step>, i: nat)
    requires i < |s.spawned|
    ensures var t := Exec(s, more);
            && i < |t.spawned|
            && t.spawned[i].id == s.spawned[i].id
            && (s.spawned[i].cancelled ==> t.spawned[i].cancelled)
  {
    if more != [] {
      hide Apply;
      RunKeepsSession(s, more[..|more| - 1], i);
      StepKeepsSession(Exec(s, more[..|more| - 1]), more[|more| - 1], i);
    }
  }

  /** A session is cancelled from its Cancel step on, whatever happens before and after. */
  lemma CancelSticks(maxSessions: nat, steps: seq<Step>, i: nat, more: seq<Step>)
    requires i < |Exec(Init(maxSessions), steps).spawned|
    ensures var t := Exec(Init(maxSessions), steps + [Cancel(i)] + more);
            i < |t.spawned| && t.spawned[i].cancelled
  {
    var s := Exec(Init(maxSessions), steps);
    ExecConcat(Init(maxSessions), steps + [Cancel(i)], more);
    ExecAppend(Init(maxSessions), steps, Cancel(i));
    assert Apply(s, Cancel(i)).spawned[i].cancelled && |Apply(s, Cancel(i)).spawned| == |s.spawned|;
    hide Exec, Apply;
    RunKeepsSession(Apply(s, Cancel(i)), more, i);
  }

  /** The reaper holds the lock, and if session `i` is still tracked it has yet to look at it. */
  ghost predicate ToBeReaped(s: State, i: nat) {
    && s.lock.Reaping?
    && i < |s.spawned| && s.spawned[i].cancelled
    && forall id <- s.sessions :: s.sessions[id] == i ==> id in s.lock.todo
  }

  lemma ReapKeepsStep(s: State, step: Step, i: nat)
    requires ToBeReaped(s, i) && step != Unlock
    ensures ToBeReaped(Apply(s, step), i)
  {
    StepKeepsSession(s, step, i);
  }

  lemma {:induction false} ReapKeepsRun(s: State, during: seq<Step>, i: nat)
    requires ToBeReaped(s, i) && Unlock !in during
    ensures ToBeReaped(Exec(s, during), i)
  {
    if during != [] {
      hide Apply, ToBeReaped;
      ReapKeepsRun(s, during[..|during| - 1], i);
      ReapKeepsStep(Exec(s, during[..|during| - 1]), during[|during| - 1], i);
    }
  }

  /** A reaper pass that begins after a session was cancelled leaves it untracked when it is
      about to unlock, whatever interleaves with the pass. */
  lemma CancelledIsReaped(maxSessions: nat, steps: seq<Step>, during: seq<Step>, i: nat)
    requires var s := Exec(Init(maxSessions), steps);
             s.lock == Free && i < |s.spawned| && s.spawned[i].cancelled
    requires Unlock !in during
    requires Exec(Init(maxSessions), steps + [ReapBegin] + during).lock == Reaping({})
    ensures forall id <- Exec(Init(maxSessions), steps + [ReapBegin] + during).sessions ::
              Exec(Init(maxSessions), steps + [ReapBegin] + during).sessions[id] != i
  {
    var s := Exec(Init(maxSessions), steps);
    ExecConcat(Init(maxSessions), steps + [ReapBegin], during);
    ExecAppend(Init(maxSessions), steps, ReapBegin);
    assert ToBeReaped(Apply(s, ReapBegin), i);
    hide Exec, Apply;
    ReapKeepsRun(Apply(s, ReapBegin), during, i);
  }

  // ----- every session closes

  /** A step that is due: the lock holder's while the lock is held, otherwise a step of a
      session that has not closed.  Starts, cancellations and new sweeps are never due. */
  predicate Due(s: State, step: Step) {
    match step
    case Visit(_, _) => s.lock != Free
    case Unlock => s.lock != Free
    case Register(i, _) => s.lock == Free && Open(s, i)
    case Launch(i) => s.lock == Free && Open(s, i)
    case Return(i) => s.lock == Free && Open(s, i)
    case Untrack(i) => s.lock == Free && Open(s, i)
    case Deregister(i, _) => s.lock == Free && Open(s, i)
    case Close(i) => s.lock == Free && Open(s, i)
    case _ => false
  }

  predicate Open(s: State, i: nat) { i < |s.spawned| && s.spawned[i].phase != Closed }

  ghost predicate Settled(s: State) { s.lock == Free && forall i :: 0 <= i < |s.spawned| ==> !Open(s, i) }

  /** No interleaving is stuck: until the lock is free and every session is closed, a step
      that is due changes the state. */
  lemma Progress(maxSessions: nat, steps: seq<Step>) returns (step: Step)
    requires !Settled(Exec(Init(maxSessions), steps))
    ensures var s := Exec(Init(maxSessions), steps); Due(s, step) && Apply(s, step) != s
  {
    ReachableInv(maxSessions, steps);
    step := ProgressFrom(Exec(Init(maxSessions), steps));
  }

  lemma ProgressFrom(s: State) returns (step: Step)
    requires TrackedWell(s) && !Settled(s)
    ensures Due(s, step) && Apply(s, step) != s
  {
    if s.lock != Free {
      if s.lock.todo == {} {
        step := Unlock;
      } else {
        var id :| id in s.lock.todo;
        step := Visit(id, true);
        assert Entry(s, id) && Apply(s, step).lock != s.lock;
      }
    } else {
      var i :| 0 <= i < |s.spawned| && Open(s, i);
      step := match s.spawned[i].phase
        case Inserted => Register(i, true)
        case Registered => Launch(i)
        case Running => Return(i)
        case Finished => Untrack(i)
        case DeregisterPending => Deregister(i, true)
        case Closing => Close(i);
      assert Apply(s, step).spawned[i].phase != s.spawned[i].phase;
    }
  }

  function Rank(p: Phase): nat {
    match p
    case Inserted => 6 case Registered => 5 case Running => 4 case Finished => 3
    case DeregisterPending => 2 case Closing => 1 case Closed => 0
  }

  function Ranks(ss: seq<Session>): nat {
    if ss == [] then 0 else Ranks(ss[..|ss| - 1]) + Rank(ss[|ss| - 1].phase)
  }

  function LockWork(l: Lock): nat {
    match l case Free => 0 case Reaping(todo) => 1 + |todo| case Sweeping(todo) => 1 + |todo|
  }

  /** What the sessions and the lock holder have still to do. */
  function Work(s: State): nat { Ranks(s.spawned) + LockWork(s.lock) }

  lemma {:induction false} RanksUpdate(ss: seq<Session>, i: nat, h: Session)
    requires i < |ss|
    ensures Ranks(ss[i := h]) + Rank(ss[i].phase) == Ranks(ss) + Rank(h.phase)
  {
    var n := |ss| - 1;
    if i == n {
      assert ss[i := h][..n] == ss[..n];
    } else {
      assert ss[i := h][..n] == ss[..n][i := h];
      RanksUpdate(ss[..n], i, h);
    }
  }

  /** Work only a start or a new sweep adds: six steps a session, one a tracked entry and
      one to unlock. */
  function Added(s: State, step: Step): nat {
    match step
    case Start(_) => 6
    case ReapBegin => 1 + s.maxSessions
    case SweepBegin => 1 + s.maxSessions
    case _ => 0
  }

  predicate Idle(step: Step) { step.Start? || step.ReapBegin? || step.SweepBegin? || step.Cancel? }

  lemma VisitWork(s: State, id: SessionId, ok: bool)
    requires TrackedWell(s)
    ensures Apply(s, Visit(id, ok)) == s || Work(Apply(s, Visit(id, ok))) < Work(s)
  {
    if id in s.sessions {
      assert Entry(s, id);
      var i := s.sessions[id];
      RanksUpdate(s.spawned, i, Dropped(s.spawned[i], ok));
      hide Ranks;
    }
  }

  lemma MoveWork(s: State, step: Step, i: nat)
    requires Moves(step, i)
    ensures Work(Apply(s, step)) <= Work(s)
    ensures !step.Cancel? ==> Apply(s, step) == s || Work(Apply(s, step)) < Work(s)
  {
    if i < |s.spawned| {
      RanksUpdate(s.spawned, i, Apply(s, step).spawned[i]);
      hide Ranks;
      assert Apply(s, step).spawned == s.spawned[i := Apply(s, step).spawned[i]];
    }
  }

  lemma IdleWork(s: State, step: Step)
    requires TrackedWell(s) && Idle(step) && !step.Cancel?
    ensures Work(Apply(s, step)) <= Work(s) + Added(s, step)
  {
    if step.Start? && Admits(s) {
      assert (s.spawned + [NewSession(step.id)])[..|s.spawned|] == s.spawned;
    }
    assert |s.sessions.Keys| == |s.sessions|;
  }

  /** Every other step that does anything leaves less to do. */
  lemma WorkDrops(s: State, step: Step)
    requires TrackedWell(s)
    ensures Work(Apply(s, step)) <= Work(s) + Added(s, step)
    ensures !Idle(step) ==> Apply(s, step) == s || Work(Apply(s, step)) < Work(s)
  {
    hide Apply, TrackedWell, Work, Admits;
    match step
    case Visit(id, ok) => VisitWork(s, id, ok);
    case Unlock => UnlockWork(s);
    case Start(_) => IdleWork(s, step);
    case ReapBegin => IdleWork(s, step);
    case SweepBegin => IdleWork(s, step);
    case Register(i, _) => MoveWork(s, step, i);
    case Launch(i) => MoveWork(s, step, i);
    case Return(i) => MoveWork(s, step, i);
    case Untrack(i) => MoveWork(s, step, i);
    case Deregister(i, _) => MoveWork(s, step, i);
    case Close(i) => MoveWork(s, step, i);
    case Cancel(i) => MoveWork(s, step, i);
  }

  lemma UnlockWork(s: State)
    ensures Apply(s, Unlock) == s || Work(Apply(s, Unlock)) < Work(s)
  {
  }

  /** How many steps other than starts, cancellations and new sweeps changed the state. */
  function Effective(s: State, steps: seq<Step>): nat {
    if steps == [] then 0
    else
      var before, step := steps[..|steps| - 1], steps[|steps| - 1];
      Effective(s, before) + if !Idle(step) && Exec(s, steps) != Exec(s, before) then 1 else 0
  }

  function AddedBy(s: State, steps: seq<Step>): nat {
    if steps == [] then 0
    else AddedBy(s, steps[..|steps| - 1]) + Added(s, steps[|steps| - 1])
  }

  /** Every run is finite but for starts, cancellations and sweeps: each start allows six
      effective steps and each sweep `maxSessions + 1`, whatever the interleaving. */
  lemma {:induction false} EveryRunEnds(maxSessions: nat, steps: seq<Step>)
    ensures var s := Init(maxSessions); Effective(s, steps) + Work(Exec(s, steps)) <= AddedBy(s, steps)
  {
    if steps != [] {
      hide Apply, Init, Work, Conserved, TrackedWell, Idle, Added;
      var before, step := steps[..|steps| - 1], steps[|steps| - 1];
      EveryRunEnds(maxSessions, before);
      ReachableInv(maxSessions, before);
      var s := Exec(Init(maxSessions), before);
      WorkDrops(s, step);
      AddedSame(s, Init(maxSessions), step);
    } else {
      NoWork(maxSessions);
    }
  }

  lemma NoWork(maxSessions: nat)
    ensures Work(Init(maxSessions)) == 0 && Init(maxSessions).maxSessions == maxSessions
  {
  }

  lemma AddedSame(s: State, t: State, step: Step)
    requires s.maxSessions == t.maxSessions
    ensures Added(s, step) == Added(t, step)
  {
  }

  /** All steps of the continuation are due. */
  ghost predicate AllDue(s: State, more: seq<Step>) {
    forall k :: 0 <= k < |more| ==> Due(Exec(s, more[..k]), more[k])
  }

  /** From every reachable state steps that are due lead to one where every session is closed
      and deregistered.  By EveryRunEnds and Progress any other order gets there too. */
  lemma {:induction false} EverySessionCloses(maxSessions: nat, steps: seq<Step>) returns (more: seq<Step>)
    ensures var s := Exec(Init(maxSessions), steps); var t := Exec(Init(maxSessions), steps + more);
            && AllDue(s, more) && t == Exec(s, more) && Settled(t)
            && |t.spawned| == |s.spawned| && t.sessions == map[]
            && forall id :: Inserts(t, id) == t.deregistered[id] + t.overwritten[id]
    decreases Work(Exec(Init(maxSessions), steps))
  {
    var s := Exec(Init(maxSessions), steps);
    if Settled(s) {
      more := [];
      assert steps + [] == steps;
      SettledEmpty(maxSessions, steps);
    } else {
      hide Apply, Init, Work, Due, Settled, Inserts, Exec;
      var step := Progress(maxSessions, steps);
      ReachableInv(maxSessions, steps);
      WorkDrops(s, step);
      DueNotIdle(s, step);
      ExecAppend(Init(maxSessions), steps, step);
      var rest := EverySessionCloses(maxSessions, steps + [step]);
      more := [step] + rest;
      assert steps + [step] + rest == steps + more;
      DueFirst(s, step, rest);
    }
  }

  lemma SettledEmpty(maxSessions: nat, steps: seq<Step>)
    requires Settled(Exec(Init(maxSessions), steps))
    ensures var t := Exec(Init(maxSessions), steps);
            t.sessions == map[] && forall id :: Inserts(t, id) == t.deregistered[id] + t.overwritten[id]
  {
    hide Exec, Init;
    var t := Exec(Init(maxSessions), steps);
    forall h <- t.spawned ensures h.phase == Closed {
      var i :| 0 <= i < |t.spawned| && t.spawned[i] == h;
      assert !Open(t, i);
    }
    AllClosedMeansAllDeregistered(maxSessions, steps);
  }

  lemma DueNotIdle(s: State, step: Step)
    requires Due(s, step)
    ensures !Idle(step) && |Apply(s, step).spawned| == |s.spawned|
  {
  }

  lemma DueFirst(s: State, step: Step, rest: seq<Step>)
    requires Due(s, step) && AllDue(Apply(s, step), rest)
    ensures AllDue(s, [step] + rest) && Exec(s, [step] + rest) == Exec(Apply(s, step), rest)
  {
    hide Apply, Due;
    var more := [step] + rest;
    FirstStep(s, step, rest);
    forall k | 0 <= k < |more| ensures Due(Exec(s, more[..k]), more[k]) {
      if k > 0 {
        assert more[..k] == [step] + rest[..k - 1];
        FirstStep(s, step, rest[..k - 1]);
      }
    }
  }

  lemma FirstStep(s: State, step: Step, rest: seq<Step>)
    ensures Exec(s, [step] + rest) == Exec(Apply(s, step), rest)
  {
    hide Apply;
    ExecConcat(s, [step], rest);
    assert [] + [step] == [step];
    ExecAppend(s, [], step);
  }

  // ----- the external registry

  predicate Announced(p: Phase) { p != Inserted }

  /** What the external registry says about one session, given where that session stands. */
  predicate RegistryAt(s: State, i: nat)
    requires i < |s.spawned|
  {
    var h := s.spawned[i];
    && (h.droppedEarly || h.deregisterFailed || h.phase == DeregisterPending ==> h.id !in s.sessions)
    && (h.droppedEarly || h.deregisterFailed ==> h.phase != DeregisterPending)
    && (h.phase == Inserted ==> h.id !in s.registry && (h.id in s.sessions || h.droppedEarly))
    && (Announced(h.phase) ==>
          (h.id in s.registry <==>
           h.announced && (h.id in s.sessions || h.phase == DeregisterPending || h.droppedEarly || h.deregisterFailed)))
  }

  ghost predicate KnownId(s: State, id: SessionId) {
    exists i :: 0 <= i < |s.spawned| && s.spawned[i].id == id
  }

  ghost predicate RegistryInv(s: State) {
    && (forall i :: 0 <= i < |s.spawned| ==> RegistryAt(s, i))
    && (forall id <- s.registry :: KnownId(s, id))
  }

  lemma StepAppends(s: State, step: Step)
    ensures var t := Apply(s, step);
            && |s.spawned| <= |t.spawned|
            && (|s.spawned| < |t.spawned| ==> step.Start? && Admits(s) && |t.spawned| == |s.spawned| + 1)
  {
    if step.Visit? {
      VisitAppends(s, step.id, step.ok);
      hide Apply;
    }
  }

  lemma VisitAppends(s: State, id: SessionId, ok: bool)
    ensures |Apply(s, Visit(id, ok)).spawned| == |s.spawned|
  {
    hide Stale, Dropped;
  }

  lemma StepRenamesNone(s: State, step: Step)
    ensures var t := Apply(s, step);
            |s.spawned| <= |t.spawned| && forall i :: 0 <= i < |s.spawned| ==> t.spawned[i].id == s.spawned[i].id
  {
    if step.Visit? {
      VisitRenamesNone(s, step.id, step.ok);
      hide Apply;
    } else {
      hide Drop, Dropped, Stale;
    }
  }

  lemma VisitRenamesNone(s: State, id: SessionId, ok: bool)
    ensures var t := Apply(s, Visit(id, ok));
            |s.spawned| == |t.spawned| && forall i :: 0 <= i < |s.spawned| ==> t.spawned[i].id == s.spawned[i].id
  {
    hide Stale;
  }

  /** Steps only append sessions and never rename one. */
  lemma StepKeepsIds(s: State, step: Step)
    ensures var t := Apply(s, step);
            && |s.spawned| <= |t.spawned|
            && (forall i :: 0 <= i < |s.spawned| ==> t.spawned[i].id == s.spawned[i].id)
            && (Fresh(t.spawned) ==> Fresh(s.spawned))
  {
    StepRenamesNone(s, step);
    hide Apply;
  }

  lemma KnownStays(s: State, step: Step)
    requires forall id <- s.registry :: KnownId(s, id)
    ensures forall id <- Apply(s, step).registry :: KnownId(Apply(s, step), id)
  {
    StepKeepsIds(s, step);
    var t := Apply(s, step);
    forall id <- t.registry ensures KnownId(t, id) {
      if id in s.registry {
        var i :| 0 <= i < |s.spawned| && s.spawned[i].id == id;
        assert t.spawned[i].id == id;
      } else {
        assert step.Register? && t.spawned[step.i].id == id;
      }
    }
  }

  lemma RegistryVisitAt(s: State, id: SessionId, ok: bool, i: nat)
    requires TrackedWell(s) && Fresh(s.spawned) && i < |s.spawned| && RegistryAt(s, i)
    ensures var t := Apply(s, Visit(id, ok)); i < |t.spawned| && RegistryAt(t, i)
  {
    if id in s.sessions {
      assert Entry(s, id);
      assert s.sessions[id] != i ==> s.spawned[i].id != id;
    }
  }

  /** Steps of one session `j`, none of which holds the lock. */
  lemma RegistryMoveAt(s: State, step: Step, j: nat, i: nat)
    requires Moves(step, j)
    requires Fresh(s.spawned) && i < |s.spawned| && RegistryAt(s, i)
    ensures var t := Apply(s, step); i < |t.spawned| && RegistryAt(t, i)
  {
    if j < |s.spawned| && j != i { assert s.spawned[i].id != s.spawned[j].id; }
  }

  lemma RegistryStepAt(s: State, step: Step, i: nat)
    requires TrackedWell(s) && Fresh(s.spawned) && i < |s.spawned| && RegistryAt(s, i)
    requires Fresh(Apply(s, step).spawned)
    ensures i < |Apply(s, step).spawned| && RegistryAt(Apply(s, step), i)
  {
    match step
    case Start(id) => assert Admits(s) ==> Apply(s, step).spawned[|s.spawned|].id == id;
    case ReapBegin =>
    case SweepBegin =>
    case Unlock =>
    case Visit(id, ok) => RegistryVisitAt(s, id, ok, i);
    case Register(j, _) => RegistryMoveAt(s, step, j, i);
    case Launch(j) => RegistryMoveAt(s, step, j, i);
    case Return(j) => RegistryMoveAt(s, step, j, i);
    case Untrack(j) => RegistryMoveAt(s, step, j, i);
    case Deregister(j, _) => RegistryMoveAt(s, step, j, i);
    case Close(j) => RegistryMoveAt(s, step, j, i);
    case Cancel(j) => RegistryMoveAt(s, step, j, i);
  }

  lemma RegistryStepNew(s: State, id: SessionId)
    requires RegistryInv(s) && Admits(s) && Fresh(Apply(s, Start(id)).spawned)
    ensures RegistryAt(Apply(s, Start(id)), |s.spawned|)
  {
    var t := Apply(s, Start(id));
    assert t.spawned[|s.spawned|] == NewSession(id);
    forall i | 0 <= i < |s.spawned| ensures s.spawned[i].id != id {
      assert t.spawned[i].id == s.spawned[i].id && t.spawned[i].id != t.spawned[|s.spawned|].id;
    }
  }

  lemma RegistryStepOne(s: State, step: Step, i: nat)
    requires TrackedWell(s) && RegistryInv(s) && Fresh(s.spawned) && Fresh(Apply(s, step).spawned)
    requires i < |Apply(s, step).spawned|
    ensures RegistryAt(Apply(s, step), i)
  {
    if i < |s.spawned| {
      hide Apply, RegistryAt, KnownId, Fresh, TrackedWell;
      RegistryStepAt(s, step, i);
    } else {
      StepAppends(s, step);
      hide Apply, RegistryAt, KnownId, Fresh, TrackedWell, RegistryInv;
      assert step == Start(step.id) && i == |s.spawned|;
      RegistryStepNew(s, step.id);
    }
  }

  lemma RegistryStep(s: State, step: Step)
    requires TrackedWell(s) && RegistryInv(s) && Fresh(Apply(s, step).spawned)
    ensures RegistryInv(Apply(s, step))
  {
    StepKeepsIds(s, step);
    KnownStays(s, step);
    hide Apply, RegistryAt, KnownId, Fresh, TrackedWell;
    var t := Apply(s, step);
    forall i: nat | i < |t.spawned| ensures RegistryAt(t, i) {
      RegistryStepOne(s, step, i);
    }
  }

  lemma {:induction false} ReachableRegistry(maxSessions: nat, steps: seq<Step>)
    requires Fresh(Exec(Init(maxSessions), steps).spawned)
    ensures RegistryInv(Exec(Init(maxSessions), steps))
  {
    if steps != [] {
      hide Apply, Init, RegistryInv, Conserved, TrackedWell, Fresh;
      var before, step := steps[..|steps| - 1], steps[|steps| - 1];
      var s := Exec(Init(maxSessions), before);
      StepKeepsIds(s, step);
      ReachableRegistry(maxSessions, before);
      ReachableInv(maxSessions, before);
      RegistryStep(s, step);
    }
  }

  /** RegisterSession runs outside the lock, so a closed session may stay listed in the
      external registry.  With IDs never reused this happens exactly when its RegisterSession
      call succeeded, and either the reaper or the sweep had removed it before that call or
      its DeregisterSession call failed. */
  lemma RegistryLeakExactly(maxSessions: nat, steps: seq<Step>, i: nat)
    requires var s := Exec(Init(maxSessions), steps);
             Fresh(s.spawned) && i < |s.spawned| && s.spawned[i].phase == Closed
    ensures var s := Exec(Init(maxSessions), steps);
            var h := s.spawned[i];
            h.id in s.registry <==> h.announced && (h.droppedEarly || h.deregisterFailed)
  {
    hide Apply, Exec, Init, Conserved, Fresh;
    ReachableRegistry(maxSessions, steps);
    ExactlyOnce(maxSessions, steps, i);
    assert RegistryAt(Exec(Init(maxSessions), steps), i);
  }

  /** ... and it does happen: a shutdown sweep between insertion and registration. */
  lemma RegistryLeakWitness(id: SessionId)
    ensures var s := Exec(Init(1), [Start(id), SweepBegin, Visit(id, true), Unlock, Register(0, true),
                                    Launch(0), Return(0), Untrack(0), Close(0)]);
            s.spawned == [Session(id, Closed, true, true, true, false)] && id in s.registry
  {
    var s4 := LeakBefore(id);
    var after := [Register(0, true), Launch(0), Return(0), Untrack(0), Close(0)];
    assert [Start(id), SweepBegin, Visit(id, true), Unlock] + after
        == [Start(id), SweepBegin, Visit(id, true), Unlock, Register(0, true),
            Launch(0), Return(0), Untrack(0), Close(0)];
    LeakAfter(id, s4);
    ExecConcat(Init(1), [Start(id), SweepBegin, Visit(id, true), Unlock], after);
  }

  lemma LeakStart(id: SessionId)
    ensures Apply(Init(1), Start(id)) == Init(1).(sessions := map[id := 0], spawned := [NewSession(id)])
  {
  }

  lemma LeakSweep(id: SessionId, s: State)
    requires s == Init(1).(sessions := map[id := 0], spawned := [NewSession(id)])
    ensures var t := Apply(Apply(Apply(s, SweepBegin), Visit(id, true)), Unlock);
            t.spawned == [Session(id, Inserted, true, true, false, false)] && t.sessions == map[] && t.lock == Free
  {
    var u := Apply(s, SweepBegin);
    var v := Apply(u, Visit(id, true));
    assert v.sessions == map[] && v.lock == Sweeping({});
  }

  lemma LeakBefore(id: SessionId) returns (s: State)
    ensures s == Exec(Init(1), [Start(id), SweepBegin, Visit(id, true), Unlock])
    ensures s.spawned == [Session(id, Inserted, true, true, false, false)] && s.sessions == map[] && s.lock == Free
  {
    hide Apply, Exec;
    ExecFour(Init(1), Start(id), SweepBegin, Visit(id, true), Unlock);
    LeakStart(id);
    LeakSweep(id, Apply(Init(1), Start(id)));
    s := Exec(Init(1), [Start(id), SweepBegin, Visit(id, true), Unlock]);
  }

  lemma LeakAfter(id: SessionId, s: State)
    requires s.spawned == [Session(id, Inserted, true, true, false, false)] && s.sessions == map[] && s.lock == Free
    ensures var t := Exec(s, [Register(0, true), Launch(0), Return(0), Untrack(0), Close(0)]);
            t.spawned == [Session(id, Closed, true, true, true, false)] && id in t.registry
  {
    hide Apply, Exec;
    var s7 := LeakRuns(id, s);
    LeakCloses(id, s7);
    ExecFour(s, Register(0, true), Launch(0), Return(0), Untrack(0));
    assert [Register(0, true), Launch(0), Return(0), Untrack(0)] + [Close(0)]
        == [Register(0, true), Launch(0), Return(0), Untrack(0), Close(0)];
    ExecAppend(s, [Register(0, true), Launch(0), Return(0), Untrack(0)], Close(0));
  }

  lemma LeakCloses(id: SessionId, s: State)
    requires s.spawned == [Session(id, Finished, true, true, true, false)] && s.sessions == map[] && s.lock == Free
    requires id in s.registry
    ensures var t := Apply(Apply(s, Untrack(0)), Close(0));
            t.spawned == [Session(id, Closed, true, true, true, false)] && id in t.registry
  {
    assert Apply(s, Untrack(0)).spawned == [Session(id, Closing, true, true, true, false)];
  }

  lemma LeakRuns(id: SessionId, s: State) returns (t: State)
    requires s.spawned == [Session(id, Inserted, true, true, false, false)] && s.sessions == map[] && s.lock == Free
    ensures t == Apply(Apply(Apply(s, Register(0, true)), Launch(0)), Return(0))
    ensures t.spawned == [Session(id, Finished, true, true, true, false)]
    ensures t.sessions == map[] && t.lock == Free && id in t.registry
  {
    var s5 := Apply(s, Register(0, true));
    assert s5.spawned == [Session(id, Registered, true, true, true, false)];
    var s6 := Apply(s5, Launch(0));
    assert s6.spawned == [Session(id, Running, true, true, true, false)];
    t := Apply(s6, Return(0));
  }

  lemma ExecAppend(s: State, steps: seq<Step>, step: Step)
    ensures Exec(s, steps + [step]) == Apply(Exec(s, steps), step)
  {
    hide Apply;
    assert (steps + [step])[..|steps|] == steps;
  }

  lemma ExecFour(s: State, a: Step, b: Step, c: Step, d: Step)
    ensures Exec(s, [a, b, c, d]) == Apply(Apply(Apply(Apply(s, a), b), c), d)
  {
    hide Apply;
    assert [] + [a] == [a] && [a] + [b] == [a, b] && [a, b] + [c] == [a, b, c] && [a, b, c] + [d] == [a, b, c, d];
    ExecAppend(s, [], a);
    ExecAppend(s, [a], b);
    ExecAppend(s, [a, b], c);
    ExecAppend(s, [a, b, c], d);
  }

  lemma {:induction false} ExecConcat(s: State, p: seq<Step>, q: seq<Step>)
    ensures Exec(s, p + q) == Exec(Exec(s, p), q)
  {
    hide Apply;
    if q == [] {
      assert p + q == p;
    } else {
      var n := |q| - 1;
      assert p + q == (p + q[..n]) + [q[n]];
      ExecAppend(s, p + q[..n], q[n]);
      ExecConcat(s, p, q[..n]);
    }
  }
}
