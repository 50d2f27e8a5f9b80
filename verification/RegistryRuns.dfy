/** Whole runs of the endpoint registry: which programs never register an endpoint with a
    closed executor, and one that does. */
module RegistryRuns {
  import opened EndpointRegistry

  datatype Operation =
    | Register(ep: Endpoint)
    | Remove(slug: string)
    | SetEnabled(slug: string, enabled: bool)
    | Replace(incoming: seq<Endpoint>)

  /** The reload brings an endpoint that uses the executor. */
  predicate Brings(op: Operation, x: Executor) { op.Replace? && x in UsedByAll(op.incoming) }

  /** A reload before operation `k` left out an executor that an earlier one had brought. */
  ghost predicate Dropped(ops: seq<Operation>, k: nat, x: Executor) {
    exists i, j :: 0 <= i < j < k <= |ops| && Brings(ops[i], x) && ops[j].Replace? && !Brings(ops[j], x)
  }

  /** What a program works on: the endpoints it registers, all its endpoints, the executors of
      registered endpoints, and all its executors. */
  datatype Pool = Pool(
    registered: set<Endpoint>, endpoints: set<Endpoint>, code: set<Executor>, executors: set<Executor>)

  ghost predicate RegistersWell(op: Operation, pool: Pool) {
    op.Register? ==> op.ep in pool.registered * pool.endpoints && Uses(op.ep) <= pool.code * pool.executors
  }

  /** Reloads bring endpoints and executors of their own, and never an executor that an
      earlier reload dropped. */
  ghost predicate ReloadsWell(ops: seq<Operation>, k: nat, pool: Pool)
    requires k < |ops|
  {
    ops[k].Replace? ==>
      && (forall i :: 0 <= i < |ops[k].incoming| ==> ops[k].incoming[i] in pool.endpoints - pool.registered)
      && UsedByAll(ops[k].incoming) <= pool.executors - pool.code
      && forall x <- UsedByAll(ops[k].incoming) :: !Dropped(ops, k, x)
  }

  ghost predicate Disciplined(ops: seq<Operation>, pool: Pool) {
    forall k :: 0 <= k < |ops| ==> RegistersWell(ops[k], pool) && ReloadsWell(ops, k, pool)
  }

  /** File-based entries use executors of the latest reload, code-based ones those of registered
      endpoints. */
  ghost predicate EntryFits(e: Endpoint, pool: Pool, last: set<Executor>)
    reads e
  {
    e in pool.endpoints && Uses(e) <= if e.isFileBased then last else pool.code
  }

  /** Between operations; `gone` are the executors closed so far. */
  ghost predicate RunInv(r: Registry, pool: Pool, last: set<Executor>, gone: set<Executor>)
    reads r, r.endpoints.Values, UsedBy(r.endpoints, r.endpoints.Keys), pool.endpoints, pool.executors, pool.registered
  {
    && r.Valid()
    && last <= pool.executors - pool.code && gone !! pool.code
    && (forall s <- r.endpoints :: EntryFits(r.endpoints[s], pool, last))
    && (forall x <- pool.executors :: x.open || x in gone)
    && (forall e <- pool.registered :: !e.isFileBased)
  }

  /** After every disciplined program, run from an empty registry with open executors, no
      registered endpoint holds a closed executor, and the two kinds still share none. */
  method Perform(r: Registry, ops: seq<Operation>, ghost pool: Pool)
    requires r.endpoints == map[] && Disciplined(ops, pool)
    requires forall x <- pool.executors :: x.open
    requires forall e <- pool.registered :: !e.isFileBased
    modifies r, pool.endpoints, pool.executors
    ensures r.Keyed() && r.Safe() && r.Separate()
    ensures forall s <- r.endpoints ::
              && (r.endpoints[s].executor != null ==> r.endpoints[s].executor.open)
              && (r.endpoints[s].policyExecutor != null ==> r.endpoints[s].policyExecutor.open)
  {
    ghost var last: set<Executor>, gone: set<Executor> := {}, {};
    hide Uses, UsedByAll, RunInv;
    assert RunInv(r, pool, last, gone) by { RunBegins(r, pool); }
    for k := 0 to |ops|
      invariant RunInv(r, pool, last, gone)
      invariant Latest(ops, k, last) && AllDropped(ops, k, gone)
    {
      assert RegistersWell(ops[k], pool) && ReloadsWell(ops, k, pool);
      Later(ops, k, last, gone);
      match ops[k] {
        case Register(ep) => DoRegister(r, ep, pool, last, gone);
        case Remove(slug) => DoRemove(r, slug, pool, last, gone);
        case SetEnabled(slug, enabled) => DoSetEnabled(r, slug, enabled, pool, last, gone);
        case Replace(incoming) =>
          ReloadLater(ops, k, last, gone);
          NotGone(ops, k, gone);
          DoReplace(r, incoming, pool, last, gone);
          gone := gone + (last - UsedByAll(incoming));
          last := UsedByAll(incoming);
      }
    }
    RunEnds(r, pool, last, gone);
  }

  lemma RunBegins(r: Registry, pool: Pool)
    requires r.endpoints == map[] && forall x <- pool.executors :: x.open
    requires forall e <- pool.registered :: !e.isFileBased
    ensures RunInv(r, pool, {}, {})
  {
  }

  lemma RunEnds(r: Registry, pool: Pool, last: set<Executor>, gone: set<Executor>)
    requires RunInv(r, pool, last, gone)
    ensures r.Valid()
    ensures forall s <- r.endpoints ::
              && (r.endpoints[s].executor != null ==> r.endpoints[s].executor.open)
              && (r.endpoints[s].policyExecutor != null ==> r.endpoints[s].policyExecutor.open)
  {
    hide UsedBy, UsedByAll;
    forall s <- r.endpoints
      ensures r.endpoints[s].executor != null ==> r.endpoints[s].executor.open
      ensures r.endpoints[s].policyExecutor != null ==> r.endpoints[s].policyExecutor.open
    {
      assert AllOpen(r.endpoints[s]);
      UsesExactly(r.endpoints[s], r.endpoints[s]);
    }
  }

  // ----- what has been dropped

  /** `last` are the executors that a reload before operation `k` brought. */
  ghost predicate Latest(ops: seq<Operation>, k: nat, last: set<Executor>) {
    last == {} || exists i :: 0 <= i < k <= |ops| && ops[i].Replace? && UsedByAll(ops[i].incoming) == last
  }

  ghost predicate AllDropped(ops: seq<Operation>, k: nat, gone: set<Executor>) {
    forall x <- gone :: Dropped(ops, k, x)
  }

  lemma Later(ops: seq<Operation>, k: nat, last: set<Executor>, gone: set<Executor>)
    requires k < |ops| && Latest(ops, k, last) && AllDropped(ops, k, gone)
    ensures Latest(ops, k + 1, last) && AllDropped(ops, k + 1, gone)
  {
    forall x <- gone ensures Dropped(ops, k + 1, x) {
      var i, j :| 0 <= i < j < k <= |ops| && Brings(ops[i], x) && ops[j].Replace? && !Brings(ops[j], x);
    }
  }

  lemma ReloadLater(ops: seq<Operation>, k: nat, last: set<Executor>, gone: set<Executor>)
    requires k < |ops| && ops[k].Replace? && Latest(ops, k, last) && AllDropped(ops, k + 1, gone)
    ensures Latest(ops, k + 1, UsedByAll(ops[k].incoming))
    ensures AllDropped(ops, k + 1, gone + (last - UsedByAll(ops[k].incoming)))
  {
    forall x <- last - UsedByAll(ops[k].incoming) ensures Dropped(ops, k + 1, x) {
      var i :| 0 <= i < k <= |ops| && ops[i].Replace? && UsedByAll(ops[i].incoming) == last;
      assert Brings(ops[i], x) && !Brings(ops[k], x);
    }
  }

  lemma NotGone(ops: seq<Operation>, k: nat, gone: set<Executor>)
    requires k < |ops| && ops[k].Replace? && AllDropped(ops, k, gone)
    requires forall x <- UsedByAll(ops[k].incoming) :: !Dropped(ops, k, x)
    ensures UsedByAll(ops[k].incoming) !! gone
  {
  }

  // ----- the operations

  method DoRegister(r: Registry, ep: Endpoint, ghost pool: Pool, ghost last: set<Executor>, ghost gone: set<Executor>)
    requires RunInv(r, pool, last, gone)
    requires ep in pool.registered * pool.endpoints && Uses(ep) <= pool.code * pool.executors
    modifies r
    ensures RunInv(r, pool, last, gone)
  {
    ghost var m := r.endpoints;
    assert AllOpen(ep) && forall s <- r.endpoints :: Apart(ep, r.endpoints[s]);
    hide Uses, UsedBy, Registry.Safe, Registry.Separate, AllOpen, Apart;
    var ok := r.Register(ep);
    assert forall s <- r.endpoints :: r.endpoints[s] == ep || (s in m && r.endpoints[s] == m[s]);
  }

  method DoRemove(r: Registry, slug: string, ghost pool: Pool, ghost last: set<Executor>, ghost gone: set<Executor>)
    requires RunInv(r, pool, last, gone)
    modifies r
    ensures RunInv(r, pool, last, gone)
  {
    ghost var m := r.endpoints;
    hide Uses, UsedBy, Registry.Safe, Registry.Separate, EntryFits;
    var ok := r.Remove(slug);
    assert forall s <- r.endpoints :: s in m && r.endpoints[s] == m[s];
  }

  method DoSetEnabled(r: Registry, slug: string, enabled: bool, ghost pool: Pool, ghost last: set<Executor>,
                      ghost gone: set<Executor>)
    requires RunInv(r, pool, last, gone)
    modifies pool.endpoints
    ensures RunInv(r, pool, last, gone)
  {
    assert slug in r.endpoints ==> EntryFits(r.endpoints[slug], pool, last);
    hide Uses, UsedBy, Registry.Safe, Registry.Separate;
    var ok := r.SetEnabled(slug, enabled);
  }

  lemma ReplaceIsSafe(r: Registry, incoming: seq<Endpoint>, pool: Pool, last: set<Executor>, gone: set<Executor>)
    requires RunInv(r, pool, last, gone)
    requires UsedByAll(incoming) <= pool.executors - pool.code && UsedByAll(incoming) !! gone
    ensures r.SafeAfter(incoming) && r.ComesApart(incoming)
    ensures UsedBy(r.endpoints, r.FileKeys()) <= last
  {
    forall i | 0 <= i < |incoming| ensures AllOpen(incoming[i]) {
      assert forall x <- Uses(incoming[i]) :: x in UsedByAll(incoming);
    }
    hide UsedByAll;
    assert forall s <- r.endpoints :: EntryFits(r.endpoints[s], pool, last);
    r.SeparationSuffices(incoming);
  }

  lemma CodeEntriesFit(r: Registry, pool: Pool, last: set<Executor>, gone: set<Executor>)
    requires RunInv(r, pool, last, gone)
    ensures forall s <- r.CodeKeys() ::
              var e := r.endpoints[s]; e.slug == s && e in pool.endpoints && Uses(e) <= pool.code && !e.isFileBased
  {
    hide Uses, UsedBy, Registry.Safe, Registry.Separate;
    assert forall s <- r.endpoints :: EntryFits(r.endpoints[s], pool, last);
  }

  /** What a safe reload does to everything the program works on. */
  method ReplaceAll(r: Registry, incoming: seq<Endpoint>, ghost pool: Pool, ghost last: set<Executor>)
    requires r.Keyed() && r.SafeAfter(incoming) && r.ComesApart(incoming)
    requires UsedBy(r.endpoints, r.FileKeys()) <= last <= pool.executors
    requires forall i :: 0 <= i < |incoming| ==> incoming[i] in pool.endpoints - pool.registered
    requires forall e <- pool.registered :: !e.isFileBased
    modifies r, pool.endpoints, pool.executors
    ensures r.Valid() && r.endpoints == AddAll(Only(old(r.endpoints), old(r.CodeKeys())), incoming)
    ensures forall i :: 0 <= i < |incoming| ==> incoming[i].isFileBased
    ensures forall x <- pool.executors :: x.open || !old(x.open) || x in last - UsedByAll(incoming)
    ensures forall e <- pool.registered :: !e.isFileBased
    ensures forall s <- old(r.CodeKeys()) :: s in old(r.endpoints)
              && (!old(r.endpoints)[s].isFileBased || old(r.endpoints)[s] in incoming)
  {
    hide Uses, UsedBy, UsedByAll, Only, AddAll, Registry.Safe, Registry.Separate, Registry.SafeAfter,
      Registry.ComesApart, Registry.FileKeys;
    r.ReplaceFileBased(incoming);
  }

  method DoReplace(r: Registry, incoming: seq<Endpoint>, ghost pool: Pool, ghost last: set<Executor>,
                   ghost gone: set<Executor>)
    requires RunInv(r, pool, last, gone)
    requires forall i :: 0 <= i < |incoming| ==> incoming[i] in pool.endpoints - pool.registered
    requires UsedByAll(incoming) <= pool.executors - pool.code && UsedByAll(incoming) !! gone
    modifies r, pool.endpoints, pool.executors
    ensures RunInv(r, pool, UsedByAll(incoming), gone + (last - UsedByAll(incoming)))
  {
    ghost var m, codeKeys := r.endpoints, r.CodeKeys();
    ReplaceIsSafe(r, incoming, pool, last, gone);
    CodeEntriesFit(r, pool, last, gone);
    hide Uses, UsedBy, UsedByAll, Only, AddAll, Registry.Safe, Registry.Separate, Registry.SafeAfter,
      Registry.ComesApart, Registry.FileKeys, Registry.CodeKeys, EntryFits;
    ReplaceAll(r, incoming, pool, last);
    EntriesFit(r, m, codeKeys, incoming, pool);
  }

  lemma EntriesFit(r: Registry, m: map<string, Endpoint>, codeKeys: set<string>, incoming: seq<Endpoint>, pool: Pool)
    requires codeKeys <= m.Keys && r.endpoints == AddAll(Only(m, codeKeys), incoming)
    requires forall i :: 0 <= i < |incoming| ==> incoming[i] in pool.endpoints && incoming[i].isFileBased
    requires forall s <- codeKeys :: m[s].slug == s && m[s] in pool.endpoints && Uses(m[s]) <= pool.code
    requires forall s <- codeKeys :: !m[s].isFileBased || m[s] in incoming
    ensures forall s <- r.endpoints :: EntryFits(r.endpoints[s], pool, UsedByAll(incoming))
  {
    forall s <- r.endpoints ensures EntryFits(r.endpoints[s], pool, UsedByAll(incoming)) {
      r.WinnerOrStays(m, codeKeys, incoming, s);
    }
  }

  /** A code-based and a file-based endpoint share an executor: dropping the latter closes it
      under the former. */
  method SharedExecutorWitness() returns (r: Registry)
    ensures "code" in r.endpoints && !AllOpen(r.endpoints["code"]) && !r.Safe()
  {
    var shared := new Executor();
    var code := new Endpoint("code", shared, null, true, false);
    var file := new Endpoint("file", shared, null, true, true);
    r := new Registry();
    hide Registry.Safe, Registry.Separate, Registry.SafeAfter, Registry.ComesApart, UsedBy, AddAll, Only,
      ClosedUnlessReused, Reused, IsOpen, Spared;
    var ok := r.Register(code);
    ok := r.Register(file);
    assert r.endpoints == map["code" := code, "file" := file];
    TwoKinds(r, code, file, shared);
    r.ReplaceFileBased([]);
    OnlyCode(code, file);
    assert shared in Uses(code);
    ClosedEntry(r, "code");
  }

  lemma TwoKinds(r: Registry, code: Endpoint, file: Endpoint, shared: Executor)
    requires r.endpoints == map["code" := code, "file" := file]
    requires !code.isFileBased && file.isFileBased && file.executor == shared
    ensures r.FileKeys() == {"file"} && r.CodeKeys() == {"code"} && shared in UsedBy(r.endpoints, r.FileKeys())
  {
    assert shared in Uses(r.endpoints["file"]) && "file" in r.FileKeys();
  }

  lemma OnlyCode(code: Endpoint, file: Endpoint)
    ensures AddAll(Only(map["code" := code, "file" := file], {"code"}), []) == map["code" := code]
  {
  }

  lemma ClosedEntry(r: Registry, s: string)
    requires s in r.endpoints && !AllOpen(r.endpoints[s])
    ensures !r.Safe()
  {
  }
}
