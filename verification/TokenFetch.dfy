/** Fetching tokens for many audiences at once: one goroutine per distinct audience, a
    semaphore, a WaitGroup, a closer goroutine and a result channel read by the caller.
    Every channel, semaphore and WaitGroup operation is one step. */
module TokenFetch {
  import opened Numbers

  const MAX_CONCURRENCY: nat := 10

  datatype Fetched = Failure | Token(token: string)

  /** Which result each audience's fetch will have. */
  type FetchResults = string -> Fetched

  datatype Worker = Idle | Starting | Fetching | HasResult | ResultSent | Released | Finished

  datatype Caller = Spawning | Collecting | Done

  /** `unique` are the audiences; results on the channel and received ones are worker
      numbers.  `panicked` is a send on the closed channel. */
  datatype State = State(
    unique: seq<string>,
    workers: seq<Worker>,
    spawned: nat,
    inFlight: nat,
    waiting: nat,
    results: seq<nat>,
    closed: bool,
    panicked: bool,
    caller: Caller,
    received: seq<nat>,
    tokens: map<string, string>)

  datatype Step =
    | Spawn | StartCloser | Acquire(i: nat) | Fetch(i: nat) | SendResult(i: nat) | Release(i: nat)
    | WorkerDone(i: nat) | CloseResults | Receive | EndRange

  function Init(unique: seq<string>): State {
    State(unique, seq(|unique|, _ => Idle), 0, 0, 0, [], false, false,
          if unique == [] then Done else Spawning, [], map[])
  }

  predicate At(s: State, i: nat, w: Worker) { i < |s.workers| && s.workers[i] == w }

  function Move(s: State, i: nat, w: Worker): State
    requires i < |s.workers|
  {
    s.(workers := s.workers[i := w])
  }

  function AddToken(tokens: map<string, string>, audience: string, r: Fetched): map<string, string> {
    if r.Token? && r.token != "" then tokens[audience := r.token] else tokens
  }

  /** One step; a step that would block or whose goroutine is elsewhere changes nothing. */
  function Apply(fetch: FetchResults, s: State, step: Step): State {
    match step
    case Spawn =>
      if s.caller == Spawning && s.spawned < |s.workers| then
        Move(s, s.spawned, Starting).(spawned := s.spawned + 1, waiting := s.waiting + 1)
      else s
    case StartCloser =>
      if s.caller == Spawning && s.spawned == |s.workers| then s.(caller := Collecting) else s
    case Acquire(i) =>
      if At(s, i, Starting) && s.inFlight < MAX_CONCURRENCY then
        Move(s, i, Fetching).(inFlight := s.inFlight + 1)
      else s
    case Fetch(i) => if At(s, i, Fetching) then Move(s, i, HasResult) else s
    case SendResult(i) =>
      if !At(s, i, HasResult) then s
      else if s.closed then s.(panicked := true)
      else if |s.results| < |s.workers| then Move(s, i, ResultSent).(results := s.results + [i])
      else s
    case Release(i) =>
      if At(s, i, ResultSent) && s.inFlight > 0 then
        Move(s, i, Released).(inFlight := s.inFlight - 1)
      else s
    case WorkerDone(i) =>
      if At(s, i, Released) && s.waiting > 0 then
        Move(s, i, Finished).(waiting := s.waiting - 1)
      else s
    case CloseResults =>
      if s.caller != Spawning && s.waiting == 0 && !s.closed && s.workers != [] then s.(closed := true) else s
    case Receive =>
      if s.caller == Collecting && s.results != [] && s.results[0] < |s.unique| then
        var a := s.unique[s.results[0]];
        s.(results := s.results[1..], received := s.received + [s.results[0]],
        tokens := AddToken(s.tokens, a, fetch(a)))
      else s
    case EndRange =>
      if s.caller == Collecting && s.closed && s.results == [] then s.(caller := Done) else s
  }

  function Exec(fetch: FetchResults, unique: seq<string>, steps: seq<Step>): State {
    if steps == [] then Init(unique)
    else Apply(fetch, Exec(fetch, unique, steps[..|steps| - 1]), steps[|steps| - 1])
  }

  // ----- counting workers

  datatype Group = Holding | Active | Delivered

  predicate In(g: Group, w: Worker) {
    match g
    case Holding => w.Fetching? || w.HasResult? || w.ResultSent?
    case Active => !w.Idle? && !w.Finished?
    case Delivered => w.ResultSent? || w.Released? || w.Finished?
  }

  function Count(ws: seq<Worker>, g: Group): nat {
    if ws == [] then 0 else Count(ws[..|ws| - 1], g) + Bit(In(g, ws[|ws| - 1]))
  }

  lemma {:induction false} CountUpdate(ws: seq<Worker>, i: nat, w: Worker, g: Group)
    requires i < |ws|
    ensures Count(ws[i := w], g) + Bit(In(g, ws[i])) == Count(ws, g) + Bit(In(g, w))
  {
    var n := |ws| - 1;
    if i == n {
      assert ws[i := w][..n] == ws[..n];
    } else {
      assert ws[i := w][..n] == ws[..n][i := w];
      CountUpdate(ws[..n], i, w, g);
    }
  }

  lemma {:induction false} CountBound(ws: seq<Worker>, g: Group)
    ensures Count(ws, g) <= |ws|
    ensures Count(ws, g) == |ws| <==> forall i :: 0 <= i < |ws| ==> In(g, ws[i])
    ensures Count(ws, g) == 0 <==> forall i :: 0 <= i < |ws| ==> !In(g, ws[i])
  {
    if ws != [] {
      var n := |ws| - 1;
      CountBound(ws[..n], g);
      assert forall i :: 0 <= i < n ==> ws[..n][i] == ws[i];
    }
  }

  // ----- invariant

  predicate Counters(s: State) {
    && |s.workers| == |s.unique|
    && s.inFlight == Count(s.workers, Holding) && s.inFlight <= MAX_CONCURRENCY
    && s.waiting == Count(s.workers, Active)
    && s.spawned <= |s.workers|
    && (forall i :: 0 <= i < |s.workers| ==> (s.workers[i] == Idle <==> i >= s.spawned))
    && (s.caller != Spawning ==> s.spawned == |s.workers|)
    && (s.closed ==> s.caller != Spawning && s.waiting == 0)
    && (s.caller == Done ==> (s.closed || s.workers == []) && s.results == [])
    && (s.workers == [] ==> s.caller == Done)
    && !s.panicked
  }

  /** Everything sent so far, received first. */
  function Sent(s: State): seq<nat> { s.received + s.results }

  ghost predicate NoRepeats(xs: seq<nat>) {
    forall i, j :: 0 <= i < j < |xs| ==> xs[i] != xs[j]
  }

  ghost predicate Deliveries(s: State) {
    && NoRepeats(Sent(s))
    && |Sent(s)| == Count(s.workers, Delivered)
    && (forall k :: 0 <= k < |Sent(s)| ==> Sent(s)[k] < |s.workers|)
    && (forall i :: 0 <= i < |s.workers| ==> (i in Sent(s) <==> In(Delivered, s.workers[i])))
  }

  function TokensOf(fetch: FetchResults, unique: seq<string>, received: seq<nat>): map<string, string> {
    if received == [] then map[]
    else
      var r := received[|received| - 1];
      var before := TokensOf(fetch, unique, received[..|received| - 1]);
      if r < |unique| then AddToken(before, unique[r], fetch(unique[r])) else before
  }

  ghost predicate Inv(fetch: FetchResults, unique: seq<string>, s: State) {
    s.unique == unique && Counters(s) && Deliveries(s) && s.tokens == TokensOf(fetch, s.unique, s.received)
  }

  lemma {:induction false} InitCounts(ws: seq<Worker>, g: Group)
    requires forall i :: 0 <= i < |ws| ==> ws[i] == Idle
    ensures Count(ws, g) == 0
  {
    if ws != [] { InitCounts(ws[..|ws| - 1], g); }
  }

  lemma InitInv(fetch: FetchResults, unique: seq<string>)
    ensures Inv(fetch, unique, Init(unique))
  {
    var ws := Init(unique).workers;
    InitCounts(ws, Holding);
    InitCounts(ws, Active);
    InitCounts(ws, Delivered);
    assert Sent(Init(unique)) == [];
  }

  /** A worker that is already running moves on, and the counters move with it. */
  lemma MoveCounters(s: State, i: nat, w: Worker, inFlight: nat, waiting: nat)
    requires Counters(s) && i < |s.workers| && s.workers[i] != Idle && w != Idle
    requires inFlight + Bit(In(Holding, s.workers[i])) == s.inFlight + Bit(In(Holding, w))
    requires waiting + Bit(In(Active, s.workers[i])) == s.waiting + Bit(In(Active, w))
    requires inFlight <= MAX_CONCURRENCY && waiting <= s.waiting
    ensures Counters(Move(s, i, w).(inFlight := inFlight, waiting := waiting))
  {
    CountUpdate(s.workers, i, w, Holding);
    CountUpdate(s.workers, i, w, Active);
    hide Count;
  }

  lemma SpawnCounters(s: State)
    requires Counters(s) && s.caller == Spawning && s.spawned < |s.workers|
    ensures Counters(Move(s, s.spawned, Starting).(spawned := s.spawned + 1, waiting := s.waiting + 1))
  {
    CountUpdate(s.workers, s.spawned, Starting, Holding);
    CountUpdate(s.workers, s.spawned, Starting, Active);
    hide Count;
  }

  /** A running worker is counted in the WaitGroup, and in the semaphore while it holds it. */
  lemma CountedWorker(s: State, i: nat)
    requires Counters(s) && i < |s.workers|
    ensures In(Active, s.workers[i]) ==> s.waiting > 0 && !s.closed
    ensures In(Holding, s.workers[i]) ==> s.inFlight > 0
  {
    CountBound(s.workers, Active);
    CountBound(s.workers, Holding);
  }

  lemma StepCounters(fetch: FetchResults, s: State, step: Step)
    requires Counters(s)
    ensures Counters(Apply(fetch, s, step))
  {
    hide Apply, Counters;
    match step
    case Acquire(i) => AcquireCounters(fetch, s, i);
    case Fetch(i) => FetchCounters(fetch, s, i);
    case SendResult(i) => SendResultCounters(fetch, s, i);
    case Release(i) => ReleaseCounters(fetch, s, i);
    case WorkerDone(i) => WorkerDoneCounters(fetch, s, i);
    case _ => CallerCounters(fetch, s, step);
  }

  predicate CallerStep(step: Step) {
    step.Spawn? || step.StartCloser? || step.CloseResults? || step.Receive? || step.EndRange?
  }

  lemma CallerCounters(fetch: FetchResults, s: State, step: Step)
    requires Counters(s) && CallerStep(step)
    ensures Counters(Apply(fetch, s, step))
  {
    if step.Spawn? && s.caller == Spawning && s.spawned < |s.workers| { SpawnCounters(s); }
    hide Count, AddToken;
  }

  lemma AcquireCounters(fetch: FetchResults, s: State, i: nat)
    requires Counters(s)
    ensures Counters(Apply(fetch, s, Acquire(i)))
  {
    if At(s, i, Starting) && s.inFlight < MAX_CONCURRENCY {
      MoveCounters(s, i, Fetching, s.inFlight + 1, s.waiting);
      hide Counters;
    }
  }

  lemma FetchCounters(fetch: FetchResults, s: State, i: nat)
    requires Counters(s)
    ensures Counters(Apply(fetch, s, Fetch(i)))
  {
    if At(s, i, Fetching) {
      MoveCounters(s, i, HasResult, s.inFlight, s.waiting);
      hide Counters;
    }
  }

  lemma SendResultCounters(fetch: FetchResults, s: State, i: nat)
    requires Counters(s)
    ensures Counters(Apply(fetch, s, SendResult(i)))
  {
    if At(s, i, HasResult) {
      CountedWorker(s, i);
      MoveCounters(s, i, ResultSent, s.inFlight, s.waiting);
      SendCounters(s, i);
      hide Counters;
    }
  }

  lemma ReleaseCounters(fetch: FetchResults, s: State, i: nat)
    requires Counters(s)
    ensures Counters(Apply(fetch, s, Release(i)))
  {
    if At(s, i, ResultSent) && s.inFlight > 0 {
      MoveCounters(s, i, Released, s.inFlight - 1, s.waiting);
      hide Counters;
    }
  }

  lemma WorkerDoneCounters(fetch: FetchResults, s: State, i: nat)
    requires Counters(s)
    ensures Counters(Apply(fetch, s, WorkerDone(i)))
  {
    if At(s, i, Released) && s.waiting > 0 {
      MoveCounters(s, i, Finished, s.inFlight, s.waiting - 1);
      hide Counters;
    }
  }

  lemma SendCounters(s: State, i: nat)
    requires i < |s.workers| && !s.closed && Counters(Move(s, i, ResultSent))
    ensures Counters(Move(s, i, ResultSent).(results := s.results + [i]))
  {
    hide Count;
  }

  lemma SendDelivers(s: State, i: nat)
    requires Deliveries(s) && At(s, i, HasResult)
    ensures Deliveries(Move(s, i, ResultSent).(results := s.results + [i]))
  {
    var t := Move(s, i, ResultSent).(results := s.results + [i]);
    CountUpdate(s.workers, i, ResultSent, Delivered);
    assert Sent(t) == Sent(s) + [i];
    assert i !in Sent(s);
    hide Count;
  }

  /** A move that sends nothing. */
  lemma QuietDelivers(s: State, t: State, i: nat, w: Worker)
    requires Deliveries(s) && i < |s.workers| && In(Delivered, w) == In(Delivered, s.workers[i])
    requires t.workers == s.workers[i := w] && t.results == s.results && t.received == s.received
    ensures Deliveries(t)
  {
    CountUpdate(s.workers, i, w, Delivered);
    hide Count;
    assert Sent(t) == Sent(s);
  }

  lemma ReceiveDelivers(s: State, t: State)
    requires Deliveries(s) && s.results != []
    requires t.workers == s.workers && t.results == s.results[1..] && t.received == s.received + [s.results[0]]
    ensures Deliveries(t)
  {
    hide Count;
    assert Sent(t) == Sent(s);
  }

  lemma StepDeliveries(fetch: FetchResults, s: State, step: Step)
    requires Deliveries(s) && Counters(s)
    ensures Deliveries(Apply(fetch, s, step))
  {
    NextIsIdle(s);
    hide Apply, Deliveries, Counters;
    match step
    case SendResult(i) => SendResultDelivers(fetch, s, i);
    case Receive => CallerDelivers(fetch, s, step);
    case StartCloser => CallerDelivers(fetch, s, step);
    case CloseResults => CallerDelivers(fetch, s, step);
    case EndRange => CallerDelivers(fetch, s, step);
    case Spawn => MoveDelivers(fetch, s, step, s.spawned, Starting);
    case Acquire(i) => MoveDelivers(fetch, s, step, i, Fetching);
    case Fetch(i) => MoveDelivers(fetch, s, step, i, HasResult);
    case Release(i) => MoveDelivers(fetch, s, step, i, Released);
    case WorkerDone(i) => MoveDelivers(fetch, s, step, i, Finished);
  }

  lemma NextIsIdle(s: State)
    requires Counters(s)
    ensures s.spawned < |s.workers| ==> s.workers[s.spawned] == Idle
  {
    hide Count;
  }

  lemma SendResultDelivers(fetch: FetchResults, s: State, i: nat)
    requires Deliveries(s)
    ensures Deliveries(Apply(fetch, s, SendResult(i)))
  {
    if At(s, i, HasResult) { SendDelivers(s, i); }
    hide Deliveries;
    SameDelivers(s, s.(panicked := true));
  }

  lemma CallerDelivers(fetch: FetchResults, s: State, step: Step)
    requires Deliveries(s) && CallerStep(step) && !step.Spawn?
    ensures Deliveries(Apply(fetch, s, step))
  {
    hide Deliveries, AddToken;
    var t := Apply(fetch, s, step);
    if t.received != s.received { ReceiveDelivers(s, t); } else { SameDelivers(s, t); }
  }

  /** The step moves worker `i` to `w`, or does nothing. */
  predicate Shifts(step: Step, spawned: nat, i: nat, w: Worker) {
    match step
    case Spawn => i == spawned && w == Starting
    case Acquire(j) => j == i && w == Fetching
    case Fetch(j) => j == i && w == HasResult
    case Release(j) => j == i && w == Released
    case WorkerDone(j) => j == i && w == Finished
    case _ => false
  }

  lemma MoveDelivers(fetch: FetchResults, s: State, step: Step, i: nat, w: Worker)
    requires Deliveries(s) && Shifts(step, s.spawned, i, w)
    requires step.Spawn? && i < |s.workers| ==> s.workers[i] == Idle
    ensures Deliveries(Apply(fetch, s, step))
  {
    hide Deliveries;
    var t := Apply(fetch, s, step);
    if t.workers != s.workers { QuietDelivers(s, t, i, w); } else { SameDelivers(s, t); }
  }

  lemma SameDelivers(s: State, t: State)
    requires Deliveries(s) && t.workers == s.workers && t.results == s.results && t.received == s.received
    ensures Deliveries(t)
  {
    assert Sent(t) == Sent(s);
  }

  lemma StepTokens(fetch: FetchResults, s: State, step: Step)
    requires s.tokens == TokensOf(fetch, s.unique, s.received)
    ensures var t := Apply(fetch, s, step);
            t.unique == s.unique && t.tokens == TokensOf(fetch, t.unique, t.received)
  {
    hide AddToken, TokensOf;
    if step.Receive? && s.results != [] { TokensNext(fetch, s.unique, s.received, s.results[0]); }
  }

  lemma TokensNext(fetch: FetchResults, unique: seq<string>, received: seq<nat>, r: nat)
    ensures r < |unique| ==> TokensOf(fetch, unique, received + [r]) ==
                             AddToken(TokensOf(fetch, unique, received), unique[r], fetch(unique[r]))
  {
    assert (received + [r])[..|received|] == received;
    hide AddToken;
  }

  /** In every interleaving: at most ten fetches in flight, no send on the closed channel,
      every result sent once, and the map holds what the received results say. */
  lemma {:induction false} ReachableInv(fetch: FetchResults, unique: seq<string>, steps: seq<Step>)
    ensures Inv(fetch, unique, Exec(fetch, unique, steps))
  {
    if steps == [] {
      InitInv(fetch, unique);
    } else {
      hide Apply, Counters, Deliveries, TokensOf;
      var s := Exec(fetch, unique, steps[..|steps| - 1]);
      ReachableInv(fetch, unique, steps[..|steps| - 1]);
      StepCounters(fetch, s, steps[|steps| - 1]);
      StepDeliveries(fetch, s, steps[|steps| - 1]);
      StepTokens(fetch, s, steps[|steps| - 1]);
    }
  }

  /** The workers of a group, by number. */
  ghost function Members(ws: seq<Worker>, g: Group): set<nat> { set i: nat | i < |ws| && In(g, ws[i]) }

  lemma {:induction false} CountMembers(ws: seq<Worker>, g: Group)
    ensures |Members(ws, g)| == Count(ws, g)
  {
    if ws == [] {
      assert Members(ws, g) == {};
    } else {
      var n := |ws| - 1;
      CountMembers(ws[..n], g);
      MembersNext(ws, g);
      hide In, Members;
    }
  }

  lemma MembersNext(ws: seq<Worker>, g: Group)
    requires ws != []
    ensures var n: nat := |ws| - 1;
            && n !in Members(ws[..n], g)
            && Members(ws, g) == Members(ws[..n], g) + if In(g, ws[n]) then {n} else {}
  {
    hide In;
    var n: nat := |ws| - 1;
    var before, now := Members(ws[..n], g), Members(ws, g);
    forall i: nat | i in now ensures i in before + if In(g, ws[n]) then {n} else {} {
      if i < n { assert ws[..n][i] == ws[i]; }
    }
    forall i: nat | i in before ensures i in now {
      assert ws[..n][i] == ws[i];
    }
  }

  lemma Subset(a: set<nat>, b: set<nat>)
    requires a <= b
    ensures |a| <= |b|
  {
    assert b == a + (b - a);
  }

  ghost function FetchingNow(ws: seq<Worker>): set<nat> { set i: nat | i < |ws| && ws[i] == Fetching }

  /** A worker that asks for the semaphore starts fetching exactly if fewer than ten workers are
      between taking it and giving it back. */
  lemma AcquireExactly(fetch: FetchResults, unique: seq<string>, steps: seq<Step>, i: nat)
    requires At(Exec(fetch, unique, steps), i, Starting)
    ensures var s := Exec(fetch, unique, steps); var t := Apply(fetch, s, Acquire(i));
            && |t.workers| == |s.workers|
            && (t.workers[i] == Fetching <==> |Members(s.workers, Holding)| < 10)
            && (t.workers[i] != Fetching ==> t == s)
  {
    hide Exec;
    ReachableInv(fetch, unique, steps);
    CountMembers(Exec(fetch, unique, steps).workers, Holding);
    hide Count, Members, Deliveries, TokensOf;
  }

  /** In every interleaving at most ten workers fetch at a time, and a worker with a result finds
      the channel open and with room, so nothing panics and no send waits. */
  lemma BoundedAndSafe(fetch: FetchResults, unique: seq<string>, steps: seq<Step>)
    ensures var s := Exec(fetch, unique, steps);
            && Count(s.workers, Holding) <= 10
            && |FetchingNow(s.workers)| <= 10
            && !s.panicked
            && (forall i :: 0 <= i < |s.workers| && s.workers[i] == HasResult ==>
                  !s.closed && |s.results| < |s.workers|)
  {
    hide Apply, Exec;
    ReachableInv(fetch, unique, steps);
    var s := Exec(fetch, unique, steps);
    CountBound(s.workers, Delivered);
    CountBound(s.workers, Active);
    CountMembers(s.workers, Holding);
    Subset(FetchingNow(s.workers), Members(s.workers, Holding));
  }

  // ----- the result does not depend on the schedule

  /** The promised map: each audience whose fetch gave a non-empty token. */
  function Expected(fetch: FetchResults, audiences: seq<string>): map<string, string> {
    map a | a in audiences && fetch(a).Token? && fetch(a).token != "" :: fetch(a).token
  }

  /** The audiences behind a list of worker numbers. */
  function Names(unique: seq<string>, received: seq<nat>): (names: seq<string>)
    requires forall k :: 0 <= k < |received| ==> received[k] < |unique|
    ensures |names| == |received| && forall k :: 0 <= k < |names| ==> names[k] == unique[received[k]]
  {
    if received == [] then []
    else Names(unique, received[..|received| - 1]) + [unique[received[|received| - 1]]]
  }

  lemma {:induction false} TokensAre(fetch: FetchResults, unique: seq<string>, received: seq<nat>)
    requires forall k :: 0 <= k < |received| ==> received[k] < |unique|
    ensures TokensOf(fetch, unique, received) == Expected(fetch, Names(unique, received))
  {
    if received != [] {
      var n := |received| - 1;
      TokensAre(fetch, unique, received[..n]);
      ExpectedAppend(fetch, Names(unique, received[..n]), unique[received[n]]);
      hide Expected;
    }
  }

  lemma ExpectedAppend(fetch: FetchResults, before: seq<string>, a: string)
    ensures Expected(fetch, before + [a]) == AddToken(Expected(fetch, before), a, fetch(a))
  {
    assert forall x :: x in before + [a] <==> x in before || x == a;
  }

  lemma ExpectedExactly(fetch: FetchResults, audiences: seq<string>)
    ensures forall a :: a in Expected(fetch, audiences) <==> a in audiences && fetch(a).Token? && fetch(a).token != ""
    ensures forall a <- Expected(fetch, audiences) :: Token(Expected(fetch, audiences)[a]) == fetch(a)
  {
  }

  lemma ExpectedSame(fetch: FetchResults, a: seq<string>, b: seq<string>)
    requires forall x :: x in a <==> x in b
    ensures Expected(fetch, a) == Expected(fetch, b)
  {
  }

  /** When the call returns, in whatever order the goroutines ran, the map holds exactly the
      audiences whose fetch gave a non-empty token, each with that token. */
  lemma ScheduleIndependent(fetch: FetchResults, unique: seq<string>, steps: seq<Step>)
    requires Exec(fetch, unique, steps).caller == Done
    ensures var tokens := Exec(fetch, unique, steps).tokens;
            && tokens == Expected(fetch, unique)
            && (forall a :: a in tokens <==> a in unique && fetch(a).Token? && fetch(a).token != "")
            && (forall a <- tokens :: Token(tokens[a]) == fetch(a))
  {
    hide Apply, Exec, Expected;
    ExpectedExactly(fetch, unique);
    ReachableInv(fetch, unique, steps);
    var s := Exec(fetch, unique, steps);
    AllReceived(s);
    hide Counters, Deliveries, TokensOf;
    TokensAre(fetch, unique, s.received);
    var names := Names(unique, s.received);
    forall x ensures x in names <==> x in unique {
      if x in unique {
        var i :| 0 <= i < |unique| && unique[i] == x;
        assert i in s.received;
        var k :| 0 <= k < |s.received| && s.received[k] == i;
        assert names[k] == x;
      }
    }
    ExpectedSame(fetch, names, unique);
  }

  lemma AllReceived(s: State)
    requires Counters(s) && Deliveries(s) && s.caller == Done
    ensures forall i :: 0 <= i < |s.workers| ==> s.workers[i] == Finished && i in s.received
    ensures forall k :: 0 <= k < |s.received| ==> s.received[k] < |s.unique|
    ensures |s.workers| == |s.unique|
  {
    CountBound(s.workers, Active);
    assert Sent(s) == s.received;
    forall i | 0 <= i < |s.workers| ensures s.workers[i] == Finished && i in s.received {
      assert !In(Active, s.workers[i]) && s.workers[i] != Idle;
      assert In(Delivered, s.workers[i]);
    }
  }

  // ----- every run ends, and none gets stuck before the call returns

  function Weight(w: Worker): nat {
    match w
    case Idle => 7 case Starting => 6 case Fetching => 5 case HasResult => 4
    case ResultSent => 2 case Released => 1 case Finished => 0
  }

  function Weights(ws: seq<Worker>): nat {
    if ws == [] then 0 else Weights(ws[..|ws| - 1]) + Weight(ws[|ws| - 1])
  }

  lemma {:induction false} WeightsUpdate(ws: seq<Worker>, i: nat, w: Worker)
    requires i < |ws|
    ensures Weights(ws[i := w]) + Weight(ws[i]) == Weights(ws) + Weight(w)
  {
    var n := |ws| - 1;
    if i == n {
      assert ws[i := w][..n] == ws[..n];
    } else {
      assert ws[i := w][..n] == ws[..n][i := w];
      WeightsUpdate(ws[..n], i, w);
    }
  }

  function Measure(s: State): nat {
    Weights(s.workers) + |s.results| + Bit(!s.closed)
    + match s.caller case Spawning => 2 case Collecting => 1 case Done => 0
  }

  /** Every step that does anything lowers the measure. */
  lemma MeasureDrops(fetch: FetchResults, unique: seq<string>, steps: seq<Step>, step: Step)
    ensures var s := Exec(fetch, unique, steps); var t := Apply(fetch, s, step);
            t == s || Measure(t) < Measure(s)
  {
    hide Exec;
    ReachableInv(fetch, unique, steps);
    var s := Exec(fetch, unique, steps);
    BoundedAndSafe(fetch, unique, steps);
    MeasureStep(fetch, s, step);
  }

  lemma MoveLowers(s: State, i: nat, w: Worker, extra: nat)
    requires i < |s.workers| && Weight(w) + extra < Weight(s.workers[i])
    ensures Weights(s.workers[i := w]) + extra < Weights(s.workers)
  {
    WeightsUpdate(s.workers, i, w);
  }

  lemma MeasureStep(fetch: FetchResults, s: State, step: Step)
    requires forall i :: 0 <= i < |s.workers| && s.workers[i] == HasResult ==> !s.closed
    requires forall i :: 0 <= i < |s.workers| ==> (s.workers[i] == Idle <==> i >= s.spawned)
    ensures Apply(fetch, s, step) == s || Measure(Apply(fetch, s, step)) < Measure(s)
  {
    hide Weights;
    match step
    case Spawn => if s.spawned < |s.workers| { MoveLowers(s, s.spawned, Starting, 0); }
    case Acquire(i) => if At(s, i, Starting) { MoveLowers(s, i, Fetching, 0); }
    case Fetch(i) => if At(s, i, Fetching) { MoveLowers(s, i, HasResult, 0); }
    case SendResult(i) => if At(s, i, HasResult) { MoveLowers(s, i, ResultSent, 1); }
    case Release(i) => if At(s, i, ResultSent) { MoveLowers(s, i, Released, 0); }
    case WorkerDone(i) => if At(s, i, Released) { MoveLowers(s, i, Finished, 0); }
    case _ =>
  }

  /** Until the call returns some step can be taken. */
  lemma NeverStuck(fetch: FetchResults, unique: seq<string>, steps: seq<Step>) returns (step: Step)
    requires Exec(fetch, unique, steps).caller != Done
    ensures Apply(fetch, Exec(fetch, unique, steps), step) != Exec(fetch, unique, steps)
  {
    hide Exec, Apply;
    ReachableInv(fetch, unique, steps);
    step := NextStep(fetch, Exec(fetch, unique, steps));
  }

  lemma NextStep(fetch: FetchResults, s: State) returns (step: Step)
    requires Counters(s) && Deliveries(s) && s.caller != Done
    ensures Apply(fetch, s, step) != s
  {
    if s.caller == Spawning {
      step := if s.spawned < |s.workers| then Spawn else StartCloser;
    } else if s.results != [] {
      step := Receive;
      assert s.results[0] == Sent(s)[|s.received|] < |s.unique|;
      assert Apply(fetch, s, step).results != s.results;
    } else if s.waiting == 0 {
      step := if s.closed || s.workers == [] then EndRange else CloseResults;
    } else {
      step := WorkerStep(fetch, s);
    }
  }

  lemma WorkerStep(fetch: FetchResults, s: State) returns (step: Step)
    requires Counters(s) && Deliveries(s) && s.results == [] && s.waiting > 0
    ensures Apply(fetch, s, step) != s
  {
    CountBound(s.workers, Active);
    CountBound(s.workers, Holding);
    if i :| 0 <= i < |s.workers| && In(Holding, s.workers[i]) {
      step := match s.workers[i]
        case Fetching => Fetch(i)
        case HasResult => SendResult(i)
        case ResultSent => Release(i);
    } else {
      var i :| 0 <= i < |s.workers| && In(Active, s.workers[i]);
      step := if s.workers[i] == Starting then Acquire(i) else WorkerDone(i);
    }
  }

  // ----- removing duplicates

  /** The audiences in order of first occurrence. */
  function FirstOccurrences(audiences: seq<string>): seq<string> {
    if audiences == [] then []
    else
      var a := audiences[|audiences| - 1];
      var before := FirstOccurrences(audiences[..|audiences| - 1]);
      if a in audiences[..|audiences| - 1] then before else before + [a]
  }

  /** The audience stands at position `k` and at none before it. */
  predicate FirstAt(audiences: seq<string>, a: string, k: nat) {
    k < |audiences| && a == audiences[k] && a !in audiences[..k]
  }

  lemma FirstHere(audiences: seq<string>, k: nat)
    requires k < |audiences| && audiences[k] !in audiences[..k]
    ensures FirstAt(audiences, audiences[k], k)
  {
  }

  /** `at` are the positions of the first occurrences. */
  method UniqueAudiences(audiences: seq<string>) returns (unique: seq<string>, ghost at: seq<nat>)
    ensures unique == FirstOccurrences(audiences)
    ensures forall i, j :: 0 <= i < j < |unique| ==> unique[i] != unique[j]
    ensures forall a :: a in unique <==> a in audiences
    ensures |at| == |unique| && forall i :: 0 <= i < |at| ==> FirstAt(audiences, unique[i], at[i])
    ensures forall i, j :: 0 <= i < j < |at| ==> at[i] < at[j]
  {
    hide FirstAt;
    at := [];
    var seen: set<string> := {};
    unique := [];
    for k := 0 to |audiences|
      invariant unique == FirstOccurrences(audiences[..k])
      invariant forall a :: a in seen <==> a in audiences[..k]
      invariant forall a :: a in unique <==> a in seen
      invariant forall i, j :: 0 <= i < j < |unique| ==> unique[i] != unique[j]
      invariant |at| == |unique| && forall i :: 0 <= i < |at| ==> at[i] < k && FirstAt(audiences, unique[i], at[i])
      invariant forall i, j :: 0 <= i < j < |at| ==> at[i] < at[j]
    {
      assert audiences[..k + 1][..k] == audiences[..k];
      assert audiences[..k + 1] == audiences[..k] + [audiences[k]];
      if audiences[k] !in seen {
        seen := seen + {audiences[k]};
        unique := unique + [audiences[k]];
        at := at + [k];
        FirstHere(audiences, k);
      }
    }
    assert audiences[..|audiences|] == audiences;
  }

  /** The whole call: any schedule over the distinct audiences that returns gives the map
      promised for the audiences as passed. */
  lemma FetchSatelliteTokens(fetch: FetchResults, audiences: seq<string>, steps: seq<Step>)
    requires Exec(fetch, FirstOccurrences(audiences), steps).caller == Done
    ensures var tokens := Exec(fetch, FirstOccurrences(audiences), steps).tokens;
            && tokens == Expected(fetch, audiences)
            && (forall a :: a in tokens <==> a in audiences && fetch(a).Token? && fetch(a).token != "")
            && (forall a <- tokens :: Token(tokens[a]) == fetch(a))
  {
    hide Exec, Expected;
    ExpectedExactly(fetch, audiences);
    ScheduleIndependent(fetch, FirstOccurrences(audiences), steps);
    FirstOccurrencesSame(audiences);
    ExpectedSame(fetch, FirstOccurrences(audiences), audiences);
  }

  lemma {:induction false} FirstOccurrencesSame(audiences: seq<string>)
    ensures forall a :: a in FirstOccurrences(audiences) <==> a in audiences
  {
    if audiences != [] {
      FirstOccurrencesSame(audiences[..|audiences| - 1]);
      assert audiences == audiences[..|audiences| - 1] + [audiences[|audiences| - 1]];
    }
  }
}
