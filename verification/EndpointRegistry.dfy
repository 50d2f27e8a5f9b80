/** The endpoint registry and its hot reload, which closes the executors of the file-based
    endpoints it drops unless the incoming endpoints still use them. */
module EndpointRegistry {
  class Executor {
    var open: bool

    constructor ()
      ensures open
    {
      open := true;
    }

    method Close()
      modifies this
      ensures !open
    {
      open := false;
    }
  }

  class Endpoint {
    const slug: string
    const executor: Executor?
    const policyExecutor: Executor?
    var enabled: bool
    var isFileBased: bool

    constructor (slug: string, executor: Executor?, policyExecutor: Executor?, enabled: bool, isFileBased: bool)
      ensures this.slug == slug && this.executor == executor && this.policyExecutor == policyExecutor
      ensures this.enabled == enabled && this.isFileBased == isFileBased
    {
      this.slug, this.executor, this.policyExecutor := slug, executor, policyExecutor;
      this.enabled, this.isFileBased := enabled, isFileBased;
    }
  }

  function Uses(ep: Endpoint): set<Executor> {
    (if ep.executor != null then {ep.executor} else {})
    + (if ep.policyExecutor != null then {ep.policyExecutor} else {})
  }

  /** What the executor sets mean, field by field. */
  lemma UsesExactly(ep: Endpoint, other: Endpoint)
    ensures forall x: Executor :: x in Uses(ep) <==> x == ep.executor || x == ep.policyExecutor
    ensures AllOpen(ep) <==>
            (ep.executor != null ==> ep.executor.open) && (ep.policyExecutor != null ==> ep.policyExecutor.open)
    ensures Uses(ep) !! Uses(other) <==>
            && (ep.executor != null ==> ep.executor != other.executor && ep.executor != other.policyExecutor)
            && (ep.policyExecutor != null ==>
                  ep.policyExecutor != other.executor && ep.policyExecutor != other.policyExecutor)
  {
  }

  /** An incoming endpoint still uses the executor. */
  predicate Reused(incoming: seq<Endpoint>, x: Executor) {
    exists i :: 0 <= i < |incoming| && (incoming[i].executor == x || incoming[i].policyExecutor == x)
  }

  lemma ReusedExactly(incoming: seq<Endpoint>, x: Executor)
    ensures x in UsedByAll(incoming) <==> Reused(incoming, x)
  {
    hide UsedByAll;
    if x in UsedByAll(incoming) {
      var i :| 0 <= i < |incoming| && x in Uses(incoming[i]);
      assert incoming[i].executor == x || incoming[i].policyExecutor == x;
    }
    if Reused(incoming, x) {
      var i :| 0 <= i < |incoming| && (incoming[i].executor == x || incoming[i].policyExecutor == x);
      assert x in Uses(incoming[i]);
    }
  }

  /** An executor of a dropped endpoint is open exactly if it was and is still used. */
  predicate ClosedUnlessReused(x: Executor?, was: bool, incoming: seq<Endpoint>)
    reads x
  {
    x != null ==> (x.open <==> was && Reused(incoming, x))
  }

  /** The executors of the entries under the given slugs. */
  function UsedBy(m: map<string, Endpoint>, keys: set<string>): set<Executor> {
    set s, x | s in keys && s in m && x in Uses(m[s]) :: x
  }

  function UsedByAll(eps: seq<Endpoint>): (r: set<Executor>)
    ensures forall i :: 0 <= i < |eps| ==> Uses(eps[i]) <= r
    ensures forall x <- r :: exists i :: 0 <= i < |eps| && x in Uses(eps[i])
  {
    if eps == [] then {} else UsedByAll(eps[..|eps| - 1]) + Uses(eps[|eps| - 1])
  }

  /** Insert the endpoints in order; a later one replaces an earlier one with its slug. */
  function AddAll(m: map<string, Endpoint>, eps: seq<Endpoint>): map<string, Endpoint> {
    if eps == [] then m
    else AddAll(m, eps[..|eps| - 1])[eps[|eps| - 1].slug := eps[|eps| - 1]]
  }

  /** eps[i] is the last endpoint of the list with its slug. */
  ghost predicate IsLast(eps: seq<Endpoint>, i: nat)
    requires i < |eps|
  {
    forall k :: i < k < |eps| ==> eps[k].slug != eps[i].slug
  }

  /** The result holds the last incoming endpoint of every slug, the old entries with
      other slugs, and nothing else. */
  lemma {:induction false} LastWins(m: map<string, Endpoint>, eps: seq<Endpoint>)
    ensures var r := AddAll(m, eps);
            && (forall i :: 0 <= i < |eps| && IsLast(eps, i) ==> eps[i].slug in r && r[eps[i].slug] == eps[i])
            && (forall s <- m :: (forall i :: 0 <= i < |eps| ==> eps[i].slug != s) ==> s in r && r[s] == m[s])
            && (forall s <- r ::
                  (exists i :: 0 <= i < |eps| && eps[i] == r[s] && eps[i].slug == s) || (s in m && r[s] == m[s]))
  {
    if eps != [] {
      var n := |eps| - 1;
      var before := AddAll(m, eps[..n]);
      var r := AddAll(m, eps);
      LastWins(m, eps[..n]);
      assert r == before[eps[n].slug := eps[n]];
      forall i | 0 <= i < |eps| && IsLast(eps, i) ensures eps[i].slug in r && r[eps[i].slug] == eps[i] {
        if i < n { assert IsLast(eps[..n], i) && eps[..n][i] == eps[i]; }
      }
      forall s <- r
        ensures (exists i :: 0 <= i < |eps| && eps[i] == r[s] && eps[i].slug == s) || (s in m && r[s] == m[s])
      {
        if s != eps[n].slug && !(s in m && r[s] == m[s]) {
          var i :| 0 <= i < n && eps[..n][i] == before[s] && eps[..n][i].slug == s;
          assert eps[i] == r[s];
        }
      }
      forall s <- m | forall i :: 0 <= i < |eps| ==> eps[i].slug != s ensures s in r && r[s] == m[s] {
        assert forall i :: 0 <= i < n ==> eps[..n][i].slug != s;
      }
    }
  }

  class Registry {
    var endpoints: map<string, Endpoint>

    ghost function FileKeys(): set<string>
      reads this, endpoints.Values
    {
      set s | s in endpoints && endpoints[s].isFileBased
    }

    ghost function CodeKeys(): set<string>
      reads this, endpoints.Values
    {
      set s | s in endpoints && !endpoints[s].isFileBased
    }

    /** Entries sit under their own slug. */
    ghost predicate Keyed()
      reads this
    {
      forall s <- endpoints :: endpoints[s].slug == s
    }

    /** No registered endpoint holds a closed executor. */
    ghost predicate Safe()
      reads this, UsedBy(endpoints, endpoints.Keys)
    {
      forall s <- endpoints :: AllOpen(endpoints[s])
    }

    /** Code-based and file-based endpoints share no executor. */
    ghost predicate Separate()
      reads this, endpoints.Values
    {
      forall s <- endpoints, t <- endpoints :: Apart(endpoints[s], endpoints[t])
    }

    ghost predicate Valid()
      reads this, endpoints.Values, UsedBy(endpoints, endpoints.Keys)
    {
      Keyed() && Safe() && Separate()
    }

    constructor ()
      ensures Valid() && endpoints == map[]
    {
      endpoints := map[];
    }

    /** Refuse a slug that is taken, otherwise add the endpoint.  Safety is kept exactly when
        an endpoint that is added comes with open executors. */
    method Register(ep: Endpoint) returns (ok: bool)
      requires Keyed()
      modifies this
      ensures Keyed()
      ensures ok <==> ep.slug !in old(endpoints)
      ensures endpoints == if ok then old(endpoints)[ep.slug := ep] else old(endpoints)
      ensures Safe() <==> old(Safe()) && (ok ==> AllOpen(ep))
      ensures Separate() <==> old(Separate()) && (ok ==> forall s <- old(endpoints) :: Apart(ep, old(endpoints)[s]))
    {
      ghost var m := endpoints;
      ok := ep.slug !in endpoints;
      if ok {
        endpoints := endpoints[ep.slug := ep];
        assert forall s <- endpoints :: s == ep.slug || (s in m && endpoints[s] == m[s]);
        assert endpoints[ep.slug] == ep && forall s <- m :: s in endpoints && endpoints[s] == m[s];
        SeparateWith(m, ep);
      }
    }

    lemma SeparateWith(m: map<string, Endpoint>, ep: Endpoint)
      requires ep.slug !in m && endpoints == m[ep.slug := ep]
      ensures Separate() <==> (forall s <- m, t <- m :: Apart(m[s], m[t])) && forall s <- m :: Apart(ep, m[s])
    {
      assert endpoints[ep.slug] == ep && forall s <- m :: s in endpoints && endpoints[s] == m[s];
      assert forall s <- endpoints :: s == ep.slug || (s in m && endpoints[s] == m[s]);
    }

    method Remove(slug: string) returns (ok: bool)
      requires Keyed()
      modifies this
      ensures Keyed()
      ensures ok <==> slug in old(endpoints)
      ensures endpoints == old(endpoints) - {slug}
      ensures old(Safe()) ==> Safe()
      ensures old(Separate()) ==> Separate()
    {
      ghost var m := endpoints;
      ok := slug in endpoints;
      endpoints := endpoints - {slug};
      assert forall s <- endpoints :: s in m && endpoints[s] == m[s];
    }

    /** Enable or disable in place; nothing is recreated. */
    method SetEnabled(slug: string, enabled: bool) returns (ok: bool)
      requires Keyed()
      modifies (if slug in endpoints then {endpoints[slug]} else {})`enabled
      ensures Keyed() && endpoints == old(endpoints)
      ensures ok <==> slug in endpoints
      ensures ok ==> endpoints[slug].enabled == enabled
      ensures Safe() == old(Safe()) && Separate() == old(Separate())
    {
      ok := slug in endpoints;
      if ok {
        endpoints[slug].enabled := enabled;
        assert forall s <- endpoints :: old(AllOpen(endpoints[s])) == AllOpen(endpoints[s]);
        assert forall s <- endpoints, t <- endpoints ::
            old(Apart(endpoints[s], endpoints[t])) == Apart(endpoints[s], endpoints[t]);
      }
    }

    /** The code-based entry stays: no incoming endpoint has its slug. */
    ghost predicate Stays(s: string, incoming: seq<Endpoint>)
      reads this, endpoints.Values
    {
      s in CodeKeys() && forall i :: 0 <= i < |incoming| ==> incoming[i].slug != s
    }

    /** Before the reload: what will be registered is open, and no code-based entry that stays
        uses an executor that the reload closes. */
    ghost predicate SafeAfter(incoming: seq<Endpoint>)
      reads this, endpoints.Values, UsedBy(endpoints, endpoints.Keys), UsedByAll(incoming)
    {
      && (forall i :: 0 <= i < |incoming| && IsLast(incoming, i) ==>
            forall x <- Uses(incoming[i]) :: x in UsedByAll(incoming) && x.open)
      && (forall s <- endpoints :: Stays(s, incoming) ==>
            AllOpen(endpoints[s]) && Uses(endpoints[s]) !! UsedBy(endpoints, FileKeys()) - UsedByAll(incoming))
    }

    /** The incoming endpoints share nothing with code-based entries that stay. */
    ghost predicate ComesApart(incoming: seq<Endpoint>)
      reads this, endpoints.Values
    {
      forall i, s :: 0 <= i < |incoming| && s in endpoints && Stays(s, incoming) ==>
        Uses(incoming[i]) !! Uses(endpoints[s])
    }

    /** Drop the file-based entries, closing exactly their executors that are not reused,
        then add the incoming endpoints as file-based, the last one per slug winning.  No
        registered endpoint holds a closed executor afterwards exactly when SafeAfter held. */
    method ReplaceFileBased(incoming: seq<Endpoint>)
      requires Keyed()
      modifies this, UsedBy(endpoints, FileKeys()), incoming`isFileBased
      ensures Keyed()
      ensures endpoints == AddAll(Only(old(endpoints), old(CodeKeys())), incoming)
      ensures forall x <- old(UsedBy(endpoints, FileKeys())) :: x.open <==> old(x.open) && x in UsedByAll(incoming)
      ensures forall i :: 0 <= i < |incoming| ==> incoming[i].isFileBased
      ensures Safe() <==> old(SafeAfter(incoming))
      ensures old(ComesApart(incoming)) ==> Separate()
      ensures forall s <- old(endpoints) :: old(endpoints[s].isFileBased) ==>
                && ClosedUnlessReused(old(endpoints)[s].executor, old(IsOpen(endpoints[s].executor)), incoming)
                && ClosedUnlessReused(old(endpoints)[s].policyExecutor, old(IsOpen(endpoints[s].policyExecutor)),
                                      incoming)
      ensures forall i :: 0 <= i < |incoming| ==>
                (forall k :: i < k < |incoming| ==> incoming[k].slug != incoming[i].slug) ==>
                incoming[i].slug in endpoints && endpoints[incoming[i].slug] == incoming[i]
      ensures forall s <- old(endpoints) :: !old(endpoints[s].isFileBased) && Spared(incoming, s) ==>
                s in endpoints && endpoints[s] == old(endpoints)[s]
      ensures forall s <- endpoints ::
                || (endpoints[s] in incoming && endpoints[s].slug == s)
                || (s in old(endpoints) && !old(endpoints[s].isFileBased) && endpoints[s] == old(endpoints)[s])
    {
      ghost var m, codeKeys, owned := endpoints, CodeKeys(), UsedBy(endpoints, FileKeys());
      ghost var fileKeys := FileKeys();
      FileEntries();
      ghost var open := set x | x in UsedBy(m, m.Keys) + UsedByAll(incoming) && x.open;
      SafeAfterMeans(incoming, open);
      ComesApartMeans(incoming);
      CodeEntries();
      OpenMeans(incoming, open);
      hide IsOpen, UsedByAll, UsedBy, AddAll, Only, Uses, Keyed, Safe, SafeAfter, ComesApart, FileKeys, CodeKeys,
        Survive, Separate, Spared, IsLast, Reused, ClosedUnlessReused;
      Reload(incoming, open);
      ClosedByField(m, fileKeys, incoming, open);
      EntriesAfter(m, codeKeys, incoming);
      SafeExactly(m, codeKeys, owned, incoming, open);
      SeparateAfter(m, codeKeys, incoming);
    }

    lemma FileEntries()
      ensures forall s <- endpoints :: endpoints[s].isFileBased <==> s in FileKeys()
      ensures forall s <- endpoints :: !endpoints[s].isFileBased <==> s in CodeKeys()
      ensures FileKeys() <= endpoints.Keys
    {
    }

    lemma OpenMeans(incoming: seq<Endpoint>, open: set<Executor>)
      requires open == set x | x in UsedBy(endpoints, endpoints.Keys) + UsedByAll(incoming) && x.open
      ensures forall s <- endpoints ::
                && (endpoints[s].executor in open <==> IsOpen(endpoints[s].executor))
                && (endpoints[s].policyExecutor in open <==> IsOpen(endpoints[s].policyExecutor))
    {
      UsedBySome(endpoints, FileKeys());
      hide UsedBy, UsedByAll;
      forall s <- endpoints
        ensures endpoints[s].executor in open <==> IsOpen(endpoints[s].executor)
        ensures endpoints[s].policyExecutor in open <==> IsOpen(endpoints[s].policyExecutor)
      {
        assert Uses(endpoints[s]) <= UsedBy(endpoints, endpoints.Keys);
      }
    }

    lemma CodeEntries()
      requires Keyed()
      ensures forall s <- CodeKeys() :: endpoints[s].slug == s && !endpoints[s].isFileBased
      ensures CodeKeys() <= endpoints.Keys && UsedBy(endpoints, FileKeys()) <= UsedBy(endpoints, endpoints.Keys)
    {
      UsedBySome(endpoints, FileKeys());
    }

    /** The three loops, and what they do to the executors of old and new endpoints. */
    method Reload(incoming: seq<Endpoint>, ghost open: set<Executor>)
      requires Keyed()
      requires open == set x | x in UsedBy(endpoints, endpoints.Keys) + UsedByAll(incoming) && x.open
      modifies this, UsedBy(endpoints, FileKeys()), incoming`isFileBased
      ensures endpoints == AddAll(Only(old(endpoints), old(CodeKeys())), incoming)
      ensures forall x <- old(UsedBy(endpoints, endpoints.Keys)) + UsedByAll(incoming) ::
                x.open <==> x in open && (x in old(UsedBy(endpoints, FileKeys())) ==> x in UsedByAll(incoming))
      ensures forall i :: 0 <= i < |incoming| ==> incoming[i].isFileBased
      ensures forall s <- old(CodeKeys()) ::
                s in old(endpoints) && (!old(endpoints)[s].isFileBased || old(endpoints)[s] in incoming)
    {
      CodeEntries();
      ghost var m, owned := endpoints, UsedBy(endpoints, FileKeys());
      ghost var executors := UsedBy(m, m.Keys) + UsedByAll(incoming);
      ghost var kept := m.Values;
      assert forall s <- CodeKeys() :: m[s] in kept;
      hide UsedBy, UsedByAll, AddAll, Only, Uses, FileKeys, CodeKeys, Keyed;
      var reused := UsedByAll(incoming);
      DropFileBased(reused, executors, open);
      AddIncoming(incoming, executors, kept);
    }

    /** The close loop, seen by all the executors concerned. */
    method DropFileBased(reused: set<Executor>, ghost executors: set<Executor>, ghost open: set<Executor>)
      requires open == (set x | x in executors && x.open) && UsedBy(endpoints, FileKeys()) <= executors
      modifies this, UsedBy(endpoints, FileKeys())
      ensures endpoints == Only(old(endpoints), old(CodeKeys()))
      ensures forall x <- executors ::
                x.open <==> x in open && (x in old(UsedBy(endpoints, FileKeys())) ==> x in reused)
    {
      hide UsedBy, Only, Uses, FileKeys, CodeKeys;
      CloseStale(reused);
    }

    /** With open executors and none shared between the two kinds, a reload that brings open
        executors is always safe. */
    lemma SeparationSuffices(incoming: seq<Endpoint>)
      requires Valid() && forall i :: 0 <= i < |incoming| ==> AllOpen(incoming[i])
      ensures SafeAfter(incoming)
    {
      forall i | 0 <= i < |incoming| ensures forall x <- Uses(incoming[i]) :: x in UsedByAll(incoming) && x.open {
        assert AllOpen(incoming[i]);
      }
      forall s <- endpoints | Stays(s, incoming) ensures Uses(endpoints[s]) !! UsedBy(endpoints, FileKeys()) {
        forall t <- FileKeys() ensures Uses(endpoints[s]) !! Uses(endpoints[t]) {
          assert Apart(endpoints[s], endpoints[t]);
        }
      }
    }

    lemma SafeAfterMeans(incoming: seq<Endpoint>, open: set<Executor>)
      requires open == set x | x in UsedBy(endpoints, endpoints.Keys) + UsedByAll(incoming) && x.open
      ensures SafeAfter(incoming) <==> Survive(endpoints, CodeKeys(), UsedBy(endpoints, FileKeys()), incoming, open)
      ensures CodeKeys() <= endpoints.Keys
    {
      UsedBySome(endpoints, FileKeys());
      hide UsedBy;
      forall s <- endpoints ensures AllOpen(endpoints[s]) <==> Uses(endpoints[s]) <= open {
        assert Uses(endpoints[s]) <= UsedBy(endpoints, endpoints.Keys);
      }
      forall i | 0 <= i < |incoming|
        ensures (forall x <- Uses(incoming[i]) :: x in UsedByAll(incoming) && x.open) <==> Uses(incoming[i]) <= open
      {
        assert Uses(incoming[i]) <= UsedByAll(incoming);
      }
      assert forall s <- endpoints :: Stays(s, incoming) <==> s in CodeKeys() && Spared(incoming, s);
    }

    lemma ComesApartMeans(incoming: seq<Endpoint>)
      ensures ComesApart(incoming) <==>
              forall i, s :: 0 <= i < |incoming| && s in CodeKeys() && Spared(incoming, s) ==>
                Uses(incoming[i]) !! Uses(endpoints[s])
    {
      assert forall s <- endpoints :: Stays(s, incoming) <==> s in CodeKeys() && Spared(incoming, s);
    }

    /** The loop over the old entries, in any order. */
    method CloseStale(reused: set<Executor>)
      modifies this, UsedBy(endpoints, FileKeys())
      ensures endpoints == Only(old(endpoints), old(CodeKeys()))
      ensures forall x <- old(UsedBy(endpoints, FileKeys())) :: x.open <==> old(x.open) && x in reused
    {
      ghost var m, fileKeys := endpoints, FileKeys();
      ghost var owned := UsedBy(m, fileKeys);
      ghost var open := set x | x in owned && x.open;
      CloseBegin();
      var todo := endpoints.Keys;
      ghost var seen: set<string> := {};
      hide UsedBy, Only, Uses, FileKeys, CodeKeys;
      while todo != {}
        invariant todo <= m.Keys && seen == fileKeys - todo && fileKeys <= m.Keys
        invariant endpoints == Only(m, m.Keys - seen)
        invariant forall s <- m :: m[s].isFileBased <==> s in fileKeys
        invariant forall x <- owned :: x.open <==> x in open && (x in reused || x !in UsedBy(m, seen))
        decreases todo
      {
        var slug :| slug in todo;
        OnlyMinus(m, seen, slug);
        if endpoints[slug].isFileBased {
          UsedByHas(m, fileKeys, slug);
          DropEntry(m, seen, owned, open, slug, reused);
          seen := seen + {slug};
        }
        todo := todo - {slug};
      }
      assert seen == fileKeys;
    }

    /** The loop body for a file-based entry. */
    method DropEntry(ghost m: map<string, Endpoint>, ghost seen: set<string>, ghost owned: set<Executor>,
                     ghost open: set<Executor>, slug: string, reused: set<Executor>)
      requires slug in m && slug !in seen && endpoints == Only(m, m.Keys - seen)
      requires forall x <- owned :: x.open <==> x in open && (x in reused || x !in UsedBy(m, seen))
      modifies this, Uses(m[slug])
      ensures endpoints == Only(m, m.Keys - (seen + {slug}))
      ensures forall x <- owned :: x.open <==> x in open && (x in reused || x !in UsedBy(m, seen + {slug}))
    {
      hide UsedBy, Only, Uses;
      OnlyMinus(m, seen, slug);
      UsedByAdd(m, seen, slug);
      CloseUnused(endpoints[slug], reused, owned);
      endpoints := endpoints - {slug};
    }

    lemma CloseBegin()
      ensures FileKeys() <= endpoints.Keys && forall s <- endpoints :: endpoints[s].isFileBased <==> s in FileKeys()
      ensures endpoints.Keys - FileKeys() == CodeKeys()
      ensures UsedBy(endpoints, {}) == {} && Only(endpoints, endpoints.Keys - {}) == endpoints
      ensures FileKeys() - endpoints.Keys == {}
    {
    }

    /** Close the executors of one dropped endpoint. */
    method CloseUnused(ep: Endpoint, reused: set<Executor>, ghost owned: set<Executor>)
      modifies Uses(ep)
      ensures forall x <- owned :: x.open <==> old(x.open) && (x in Uses(ep) ==> x in reused)
      ensures ep.executor != null ==> (ep.executor.open <==> old(ep.executor.open) && ep.executor in reused)
      ensures ep.policyExecutor != null ==>
                (ep.policyExecutor.open <==> old(ep.policyExecutor.open) && ep.policyExecutor in reused)
    {
      if ep.executor != null && ep.executor !in reused { ep.executor.Close(); }
      if ep.policyExecutor != null && ep.policyExecutor !in reused { ep.policyExecutor.Close(); }
    }

    /** The loop over the incoming endpoints. */
    method AddIncoming(incoming: seq<Endpoint>, ghost executors: set<Executor>, ghost kept: set<Endpoint>)
      modifies this, incoming`isFileBased
      ensures forall x <- executors :: x.open == old(x.open)
      ensures endpoints == AddAll(old(endpoints), incoming)
      ensures forall i :: 0 <= i < |incoming| ==> incoming[i].isFileBased
      ensures forall e <- kept :: e.isFileBased <==> old(e.isFileBased) || e in incoming
    {
      for i := 0 to |incoming|
        invariant endpoints == AddAll(old(endpoints), incoming[..i])
        invariant forall k :: 0 <= k < i ==> incoming[k].isFileBased
        invariant forall x <- executors :: x.open == old(x.open)
        invariant forall e <- kept :: e.isFileBased <==> old(e.isFileBased) || e in incoming[..i]
      {
        assert incoming[..i + 1][..i] == incoming[..i];
        incoming[i].isFileBased := true;
        endpoints := endpoints[incoming[i].slug := incoming[i]];
      }
      assert incoming[..|incoming|] == incoming;
    }

    lemma SafeExactly(m: map<string, Endpoint>, codeKeys: set<string>, owned: set<Executor>,
                      incoming: seq<Endpoint>, open: set<Executor>)
      requires codeKeys <= m.Keys && endpoints == AddAll(Only(m, codeKeys), incoming)
      requires forall s <- codeKeys :: m[s].slug == s
      requires forall x <- UsedBy(m, m.Keys) + UsedByAll(incoming) ::
                 x.open <==> x in open && (x in owned ==> x in UsedByAll(incoming))
      ensures Safe() <==> Survive(m, codeKeys, owned, incoming, open)
      ensures Keyed()
    {
      hide AddAll, Only, UsedBy, Uses;
      LastWins(Only(m, codeKeys), incoming);
      OnlyThose(m, codeKeys);
      UsedBySome(m, codeKeys);
      forall s <- endpoints
        ensures endpoints[s].slug == s && (Survive(m, codeKeys, owned, incoming, open) ==> AllOpen(endpoints[s]))
      {
        WinnerOrStays(m, codeKeys, incoming, s);
      }
      if Safe() {
        forall i | 0 <= i < |incoming| && IsLast(incoming, i) ensures Uses(incoming[i]) <= open {
          assert AllOpen(endpoints[incoming[i].slug]);
        }
        forall s <- codeKeys | Spared(incoming, s)
          ensures Uses(m[s]) <= open && Uses(m[s]) !! owned - UsedByAll(incoming)
        {
          assert AllOpen(endpoints[s]);
        }
      }
    }

    lemma SeparateAfter(m: map<string, Endpoint>, codeKeys: set<string>, incoming: seq<Endpoint>)
      requires codeKeys <= m.Keys && endpoints == AddAll(Only(m, codeKeys), incoming)
      requires forall s <- codeKeys :: m[s].slug == s
      requires forall i :: 0 <= i < |incoming| ==> incoming[i].isFileBased
      requires forall s <- codeKeys :: !m[s].isFileBased || m[s] in incoming
      ensures (forall i, s :: 0 <= i < |incoming| && s in codeKeys && Spared(incoming, s) ==>
                 Uses(incoming[i]) !! Uses(m[s])) ==> Separate()
    {
      hide AddAll, Only, Uses;
      if forall i, s :: 0 <= i < |incoming| && s in codeKeys && Spared(incoming, s) ==>
           Uses(incoming[i]) !! Uses(m[s])
      {
        forall s <- endpoints, t <- endpoints ensures Apart(endpoints[s], endpoints[t]) {
          WinnerOrStays(m, codeKeys, incoming, s);
          WinnerOrStays(m, codeKeys, incoming, t);
        }
      }
    }

    /** Exactly the last incoming endpoint of each slug and the code-based entries with other
        slugs are registered afterwards. */
    lemma EntriesAfter(m: map<string, Endpoint>, codeKeys: set<string>, incoming: seq<Endpoint>)
      requires codeKeys <= m.Keys && endpoints == AddAll(Only(m, codeKeys), incoming)
      ensures forall i :: 0 <= i < |incoming| ==>
                (forall k :: i < k < |incoming| ==> incoming[k].slug != incoming[i].slug) ==>
                incoming[i].slug in endpoints && endpoints[incoming[i].slug] == incoming[i]
      ensures forall s <- codeKeys :: Spared(incoming, s) ==> s in endpoints && endpoints[s] == m[s]
      ensures forall s <- endpoints ::
                || (endpoints[s] in incoming && endpoints[s].slug == s)
                || (s in codeKeys && endpoints[s] == m[s])
    {
      hide AddAll, Only;
      LastWins(Only(m, codeKeys), incoming);
      OnlyThose(m, codeKeys);
      forall i | 0 <= i < |incoming| && forall k :: i < k < |incoming| ==> incoming[k].slug != incoming[i].slug
        ensures incoming[i].slug in endpoints && endpoints[incoming[i].slug] == incoming[i]
      {
        assert IsLast(incoming, i);
      }
      forall s <- endpoints
        ensures (endpoints[s] in incoming && endpoints[s].slug == s) || (s in codeKeys && endpoints[s] == m[s])
      {
        WinnerOrStays(m, codeKeys, incoming, s);
      }
    }

    /** Every entry after the reload is the last incoming one of its slug, or an untouched
        code-based one. */
    lemma WinnerOrStays(m: map<string, Endpoint>, codeKeys: set<string>, incoming: seq<Endpoint>, s: string)
      requires codeKeys <= m.Keys && endpoints == AddAll(Only(m, codeKeys), incoming) && s in endpoints
      ensures (exists i :: 0 <= i < |incoming| && IsLast(incoming, i)
                           && incoming[i] == endpoints[s] && incoming[i].slug == s)
              || (s in codeKeys && Spared(incoming, s) && endpoints[s] == m[s])
    {
      hide AddAll;
      LastWins(Only(m, codeKeys), incoming);
      if !Spared(incoming, s) {
        var i := LastOf(incoming, s);
      }
    }
  }

  predicate IsOpen(x: Executor?)
    reads x
  {
    x != null && x.open
  }

  /** Both executors of every dropped endpoint. */
  lemma ClosedByField(m: map<string, Endpoint>, fileKeys: set<string>, incoming: seq<Endpoint>, open: set<Executor>)
    requires fileKeys <= m.Keys
    requires forall x <- UsedBy(m, fileKeys) :: x.open <==> x in open && x in UsedByAll(incoming)
    ensures forall s <- fileKeys ::
              && ClosedUnlessReused(m[s].executor, m[s].executor in open, incoming)
              && ClosedUnlessReused(m[s].policyExecutor, m[s].policyExecutor in open, incoming)
  {
    forall s <- fileKeys
      ensures && ClosedUnlessReused(m[s].executor, m[s].executor in open, incoming)
              && ClosedUnlessReused(m[s].policyExecutor, m[s].policyExecutor in open, incoming)
    {
      hide UsedBy, UsedByAll, Reused;
      UsedByHas(m, fileKeys, s);
      if m[s].executor != null { ReusedExactly(incoming, m[s].executor); }
      if m[s].policyExecutor != null { ReusedExactly(incoming, m[s].policyExecutor); }
    }
  }

  /** No incoming endpoint has the slug. */
  predicate Spared(incoming: seq<Endpoint>, s: string) {
    forall i :: 0 <= i < |incoming| ==> incoming[i].slug != s
  }

  lemma {:induction false} LastOf(incoming: seq<Endpoint>, s: string) returns (i: nat)
    requires !Spared(incoming, s)
    ensures i < |incoming| && IsLast(incoming, i) && incoming[i].slug == s
  {
    var n := |incoming| - 1;
    if incoming[n].slug == s {
      i := n;
    } else {
      assert !Spared(incoming[..n], s);
      i := LastOf(incoming[..n], s);
    }
  }

  /** With `open` the executors open before the reload: the winners' are open, and so are
      those of the code-based entries that stay, which use none that is closed. */
  ghost predicate Survive(m: map<string, Endpoint>, codeKeys: set<string>, owned: set<Executor>,
                          incoming: seq<Endpoint>, open: set<Executor>)
    requires codeKeys <= m.Keys
  {
    && (forall i :: 0 <= i < |incoming| && IsLast(incoming, i) ==> Uses(incoming[i]) <= open)
    && (forall s <- codeKeys :: Spared(incoming, s) ==>
          Uses(m[s]) <= open && Uses(m[s]) !! owned - UsedByAll(incoming))
  }

  lemma OnlyThose(m: map<string, Endpoint>, keys: set<string>)
    requires keys <= m.Keys
    ensures Only(m, keys).Keys == keys && forall s <- keys :: Only(m, keys)[s] == m[s]
  {
  }

  ghost predicate AllOpen(ep: Endpoint)
    reads Uses(ep)
  {
    forall x <- Uses(ep) :: x.open
  }

  /** A code-based and a file-based endpoint share no executor. */
  ghost predicate Apart(a: Endpoint, b: Endpoint)
    reads a, b
  {
    a.isFileBased != b.isFileBased ==> Uses(a) !! Uses(b)
  }

  function Only(m: map<string, Endpoint>, keys: set<string>): map<string, Endpoint> {
    map s | s in m && s in keys :: m[s]
  }

  lemma OnlyMinus(m: map<string, Endpoint>, seen: set<string>, s: string)
    requires s in m && s !in seen
    ensures s in Only(m, m.Keys - seen) && Only(m, m.Keys - seen)[s] == m[s]
    ensures Only(m, m.Keys - seen) - {s} == Only(m, m.Keys - (seen + {s}))
  {
  }

  lemma UsedBySome(m: map<string, Endpoint>, keys: set<string>)
    ensures UsedBy(m, keys) <= UsedBy(m, m.Keys)
    ensures forall s <- m :: Uses(m[s]) <= UsedBy(m, m.Keys)
  {
  }

  lemma UsedByHas(m: map<string, Endpoint>, keys: set<string>, s: string)
    requires s in m && s in keys
    ensures Uses(m[s]) <= UsedBy(m, keys)
  {
  }

  lemma UsedByAdd(m: map<string, Endpoint>, keys: set<string>, s: string)
    requires s in m
    ensures UsedBy(m, keys + {s}) == UsedBy(m, keys) + Uses(m[s])
  {
    forall x <- UsedBy(m, keys) ensures x in UsedBy(m, keys + {s}) {
      var t :| t in keys && t in m && x in Uses(m[t]);
      assert t in keys + {s};
    }
    assert s in keys + {s};
  }
}
