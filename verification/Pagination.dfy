/** The lazy page iterator of the Go SDK over a backing list served in pages. */
module Pagination {
  import opened Numbers
  import opened Selection
  import opened Wrappers

  /** The server: its items, and the offsets at which a request fails at the moment.  No
      iterator changes them, but they may change between two calls of an iterator. */
  class Server<T> {
    const items: seq<T>
    var down: set<nat>

    constructor (items: seq<T>, down: set<nat>)
      ensures this.items == items && this.down == down
    {
      this.items, this.down := items, down;
    }

    function Fetch(skip: nat, limit: nat): Option<seq<T>>
      reads this
    {
      if skip in down then None
      else if skip >= |items| then Some([])
      else Some(items[skip..Min(skip + limit, |items|)])
    }

    /** A request fails exactly at the offsets that are down; otherwise it gets the items from
        the offset on, at most `limit` and none past the end. */
    lemma FetchExactly(skip: nat, limit: nat)
      ensures Fetch(skip, limit).None? <==> skip in down
      ensures var page := Fetch(skip, limit);
              page.Some? && skip <= |items| ==>
                && |page.value| == (if skip + limit <= |items| then limit else |items| - skip)
                && page.value <= items[skip..]
      ensures Fetch(skip, limit).Some? && skip > |items| ==> Fetch(skip, limit).value == []
    {
    }
  }

  /** How many pages of size p a caller of `Next` needs to see m items (m >= 1) of a list
      of n: the pages that hold them, or all pages and the one that shows the end. */
  function PagesFor(m: nat, n: nat, p: nat): nat
    requires p > 0
  {
    if m <= n then (m + p - 1) / p else n / p + 1
  }

  lemma PagesForAll(n: nat, p: nat)
    requires p > 0
    ensures PagesFor(n + 1, n, p) == n / p + 1
  {
  }

  lemma PagesExact(pages: nat, m: nat, n: nat, p: nat)
    requires p > 0 && pages > 0
    requires (pages - 1) * p <= n
    requires m <= n ==> (pages - 1) * p < m <= pages * p
    requires m > n ==> n < pages * p
    ensures pages == PagesFor(m, n, p)
  {
    assert (pages - 1) * p + p == pages * p;
    if m <= n {
      DivIs(m + p - 1, p, pages);
    } else {
      DivIs(n, p, pages - 1);
    }
  }

  lemma DivIs(a: nat, p: nat, q: nat)
    requires p > 0 && q * p <= a < q * p + p
    ensures a / p == q
  {
    var d := a / p;
    assert a == d * p + a % p;
    assert (d + 1) * p == d * p + p && (q + 1) * p == q * p + p;
    MulCancel(q, d + 1, p);
    MulCancel(d, q + 1, p);
  }

  lemma MulCancel(a: nat, b: nat, p: nat)
    requires a * p < b * p
    ensures a < b
  {
    if a >= b { MulMonotone(b, a, p); }
  }

  lemma MulMonotone(a: nat, b: nat, p: nat)
    requires a <= b
    ensures a * p <= b * p
  {
  }

  predicate NoneFails<T>(xs: seq<T>, fails: T -> bool) {
    forall i :: 0 <= i < |xs| ==> !fails(xs[i])
  }

  lemma NoneFailsPrefix<T>(xs: seq<T>, n: nat, fails: T -> bool)
    requires n < |xs|
    ensures NoneFails(xs[..n + 1], fails) <==> NoneFails(xs[..n], fails) && !fails(xs[n])
    ensures NoneFails(xs, fails) ==> NoneFails(xs[..n + 1], fails)
  {
    assert forall i :: 0 <= i < n ==> xs[..n + 1][i] == xs[..n][i] == xs[i];
  }

  lemma NoneFailsMeans<T>(xs: seq<T>, fails: T -> bool)
    ensures NoneFails(xs, fails) <==> forall i :: 0 <= i < |xs| ==> !fails(xs[i])
  {
  }

  datatype ForEachEnd = AllVisited | CallbackFailed | FetchFailed

  class PageIterator<T(0)> {
    const server: Server<T>
    const pageSize: nat
    var buffer: seq<T>
    var currentPage: nat
    var exhausted: bool
    var failed: bool
    var current: T
    /** Requests made since the last Reset. */
    ghost var requests: nat

    /** The offset of page `k`. */
    function Skip(k: nat): nat { k * pageSize }

    predicate PageDown(k: nat)
      reads server
    {
      Skip(k) in server.down
    }

    ghost function Count(): nat { |server.items| }

    /** How many items the pages fetched so far hold. */
    ghost function Fetched(): nat
      reads this
    {
      Min(currentPage * pageSize, Count())
    }

    /** How many items Next has handed out since the last Reset. */
    ghost function Consumed(): int
      reads this
    {
      Fetched() - |buffer|
    }

    /** The iterator has been used through Reset and Next only. */
    ghost predicate Valid()
      reads this
    {
      && pageSize > 0
      && |buffer| <= Fetched()
      && buffer == server.items[Fetched() - |buffer|..Fetched()]
      && (exhausted <==> currentPage > 0 && Count() < currentPage * pageSize)
      && (currentPage > 0 ==> (currentPage - 1) * pageSize <= Consumed())
    }

    /** Pages 0 .. pages-1 all answer. */
    ghost predicate Reachable(pages: nat)
      reads server
    {
      forall k: nat :: k < pages ==> !PageDown(k)
    }

    lemma ReachableNext(pages: nat)
      ensures Reachable(pages + 1) <==> Reachable(pages) && !PageDown(pages)
      ensures Reachable(0)
    {
    }

    /** And the server has answered as it would now: every page but the one that failed. */
    ghost predicate Steady()
      reads this, server
    {
      && Valid()
      && (failed ==> buffer == [] && !exhausted && PageDown(currentPage))
      && Reachable(currentPage)
      && requests == currentPage + Bit(failed)
    }

    constructor (server: Server<T>, size: int)
      ensures this.server == server && pageSize == (if size <= 0 then 20 else size)
      ensures Valid() && Steady() && Consumed() == 0 && !failed
    {
      this.server := server;
      pageSize := if size <= 0 then 20 else size;
      buffer, currentPage, exhausted, failed, requests := [], 0, false, false, 0;
      new;
      current := *;
      Unstarted();
    }

    method Reset()
      requires pageSize > 0
      modifies this
      ensures Valid() && Steady() && Consumed() == 0 && !failed && requests == 0 && currentPage == 0
      ensures buffer == [] && !exhausted
    {
      buffer, currentPage, exhausted, failed, requests := [], 0, false, false, 0;
      current := *;
      Unstarted();
    }

    lemma Unstarted()
      requires pageSize > 0 && buffer == [] && currentPage == 0 && !exhausted && !failed && requests == 0
      ensures Valid() && Steady() && Consumed() == 0
    {
      assert Fetched() == 0;
    }

    method FetchPage(page: nat) returns (items: Option<seq<T>>)
      requires pageSize > 0
      modifies this`exhausted, this`requests
      ensures items == server.Fetch(Skip(page), pageSize)
      ensures exhausted == (old(exhausted) || (items.Some? && |items.value| < pageSize))
      ensures requests == old(requests) + 1
    {
      items := server.Fetch(page * pageSize, pageSize);
      requests := requests + 1;
      if items.Some? && |items.value| < pageSize { exhausted := true; }
    }

    /** FirstPage fetches page 0 again and may leave `exhausted` set, so it does not keep
        Valid; every collecting method below resets first and does not need it. */
    method FirstPage() returns (items: Option<seq<T>>)
      requires pageSize > 0
      modifies this`exhausted, this`requests
      ensures items == server.Fetch(0, pageSize)
      ensures items.None? <==> 0 in server.down
      ensures items.Some? ==> items.value == server.items[..Min(pageSize, Count())]
    {
      items := FetchPage(0);
    }

    /** Next has just handed out item number i. */
    ghost predicate HasItem(i: int)
      reads this, server
    {
      && Valid() && Steady() && !failed
      && 0 <= i && i + 1 == Consumed() <= Count() && current == server.items[i]
      && currentPage > 0 && (currentPage - 1) * pageSize < Consumed()
    }

    lemma ItemFacts(i: int)
      requires HasItem(i)
      ensures Valid() && Steady() && !failed && 0 <= i < Count() && Consumed() == i + 1 && current == server.items[i]
    {
    }

    /** Next has handed out i items and has no more: the list is over, or a request failed. */
    ghost predicate AtEnd(i: int)
      reads this, server
    {
      && Valid() && Steady() && i == Consumed() && 0 <= i <= Count()
      && (if failed then PageDown(currentPage) && i == currentPage * pageSize
          else i == Count() && currentPage > 0 && Count() < currentPage * pageSize)
    }

    /** Hand out the next item of the list, fetching a page only when needed.  After a failed
        request the same page is asked for again, so nothing is skipped or repeated; the error
        stays recorded. */
    method Next() returns (ok: bool)
      requires Valid()
      modifies this
      ensures Valid()
      ensures ok ==> Gave(old(Consumed())) && failed == old(failed)
      ensures !ok ==> NoItem(old(Consumed())) && (failed == old(failed) || PageDown(currentPage))
      ensures old(Steady() && !failed) ==> if ok then HasItem(old(Consumed())) else AtEnd(old(Consumed()))
    {
      if |buffer| > 0 {
        assert buffer[0] == server.items[Consumed()];
        current := buffer[0];
        buffer := buffer[1..];
        return true;
      }
      if exhausted { return false; }
      ok := NextPage();
    }

    /** Item number i was handed out just now. */
    ghost predicate Gave(i: int)
      reads this
    {
      0 <= i < Count() && current == server.items[i] && Consumed() == i + 1
    }

    /** Nothing was handed out after i items: the list is over, or the request failed. */
    ghost predicate NoItem(i: int)
      reads this, server
    {
      && buffer == [] && Consumed() == i
      && (if exhausted then i == Count() else failed && PageDown(currentPage))
    }

    /** The second half of Next: the buffer is empty and the list is not known to be over. */
    method NextPage() returns (ok: bool)
      requires Valid() && buffer == [] && !exhausted
      modifies this
      ensures Valid()
      ensures ok ==> Gave(old(Consumed())) && failed == old(failed)
      ensures !ok ==> NoItem(old(Consumed())) && (failed == old(failed) || PageDown(currentPage))
      ensures old(Steady() && !failed) ==> if ok then HasItem(old(Consumed())) else AtEnd(old(Consumed()))
    {
      ghost var k, steady := currentPage, Steady() && !failed;
      ghost var skip := Skip(k);
      NothingBuffered();
      ReachableNext(k);
      hide Min, Skip, Server.Fetch, PageDown, Reachable, Valid, Steady, Consumed, Fetched, Gave, NoItem, HasItem, AtEnd;
      var page := FetchPage(currentPage);
      FetchAnswer(currentPage);
      if page.None? {
        failed := true;
        FetchRefused(skip);
        return false;
      }
      ok := Absorb(page.value, skip);
      FetchAnswered(k, skip, steady);
    }

    lemma NothingBuffered()
      requires Valid() && buffer == [] && !exhausted
      ensures pageSize > 0 && Consumed() == Skip(currentPage) <= Count()
      ensures Steady() && !failed ==> Reachable(currentPage) && requests == currentPage
    {
    }

    /** The request just made failed. */
    lemma FetchRefused(skip: nat)
      requires pageSize > 0 && buffer == [] && !exhausted && failed && PageDown(currentPage)
      requires skip == Skip(currentPage) <= Count()
      ensures Valid() && NoItem(skip)
      ensures Reachable(currentPage) && requests == currentPage + 1 ==> AtEnd(skip)
    {
      NextSkip(currentPage);
      assert (currentPage - 1) * pageSize + pageSize == currentPage * pageSize;
      assert Fetched() == skip;
      hide PageDown, Reachable;
    }

    /** The page just fetched is the current one. */
    lemma FetchAnswered(k: nat, skip: nat, steady: bool)
      requires Valid() && currentPage == k + 1 && skip == Skip(k)
      requires steady ==> !failed && Reachable(currentPage) && requests == currentPage
      ensures steady && Gave(skip) ==> HasItem(skip)
      ensures buffer == [] && exhausted && Consumed() == skip == Count() ==> NoItem(skip) && (steady ==> AtEnd(skip))
    {
      NextSkip(k);
      hide PageDown, Reachable;
    }

    /** Make the page that was just fetched the current one. */
    method Absorb(page: seq<T>, ghost skip: nat) returns (ok: bool)
      requires pageSize > 0 && buffer == [] && skip == Skip(currentPage) <= Count()
      requires page == server.items[skip..Min(skip + pageSize, Count())]
      requires exhausted <==> |page| < pageSize
      modifies this`buffer, this`current, this`currentPage, this`exhausted
      ensures Valid() && currentPage == old(currentPage) + 1
      ensures ok ==> Gave(skip)
      ensures !ok ==> buffer == [] && exhausted && Consumed() == skip == Count()
    {
      hide Valid, Fetched, Consumed;
      ghost var k, end := currentPage, Min(skip + pageSize, Count());
      currentPage := currentPage + 1;
      if |page| == 0 {
        exhausted := true;
        PageHeld(k, skip, end);
        return false;
      }
      current := page[0];
      if |page| > 1 { buffer := page[1..]; }
      assert buffer == server.items[skip + 1..end];
      PageHeld(k, skip, end);
      return true;
    }

    /** Page k is the last one fetched and the buffer holds what is left of it. */
    lemma PageHeld(k: nat, skip: nat, end: nat)
      requires pageSize > 0 && currentPage == k + 1 && skip == k * pageSize <= Count()
      requires end == Min(skip + pageSize, Count())
      requires |buffer| <= end - skip && buffer == server.items[end - |buffer|..end]
      requires exhausted <==> end - skip < pageSize
      ensures Valid() && Consumed() == end - |buffer|
    {
      NextSkip(k);
      assert currentPage * pageSize == skip + pageSize && (currentPage - 1) * pageSize == skip;
      assert Fetched() == end;
    }

    lemma NextSkip(k: nat)
      ensures (k + 1) * pageSize == k * pageSize + pageSize && (k + 1 - 1) * pageSize == k * pageSize
    {
    }

    lemma FetchAnswer(k: nat)
      requires pageSize > 0 && Skip(k) <= Count()
      ensures var answer := server.Fetch(Skip(k), pageSize);
              && (answer.None? <==> PageDown(k))
              && (answer.Some? ==> answer.value == server.items[Skip(k)..Min(Skip(k) + pageSize, Count())])
    {
    }

    /** Everything, with one request per page and one that sees the end. */
    method All() returns (r: Option<seq<T>>)
      requires pageSize > 0
      modifies this
      ensures r.Some? <==> Reachable(PagesFor(Count() + 1, Count(), pageSize))
      ensures r.Some? ==> r.value == server.items && requests == Count() / pageSize + 1
      ensures r.None? ==> requests > 0 && PageDown(requests - 1) && Reachable(requests - 1)
    {
      hide PagesFor, PageDown, Valid, Steady, Reachable, Gave, NoItem, HasItem, AtEnd, Consumed;
      Reset();
      var result: seq<T> := [];
      var more := Next();
      while more
        invariant |result| <= Count() && result == server.items[..|result|]
        invariant if more then HasItem(|result|) else AtEnd(|result|)
        decreases Count() - |result|, more
      {
        ItemFacts(|result|);
        result := result + [current];
        more := Next();
      }
      EndFacts(|result|, Count() + 1);
      if failed { return None; }
      PagesForAll(Count(), pageSize);
      r := Some(result);
    }

    /** What is known when the list is over or a request failed, for a caller who wanted m
        items, more than the i it got. */
    lemma EndFacts(i: nat, m: nat)
      requires AtEnd(i) && i < m
      ensures failed ==> requests > 0 && PageDown(requests - 1) && Reachable(requests - 1)
      ensures failed ==> !Reachable(PagesFor(m, Count(), pageSize))
      ensures !failed ==> i == Count() && requests == PagesFor(m, Count(), pageSize) && Reachable(requests)
    {
      if failed {
        FailedEarly(currentPage, m);
      } else {
        PagesExact(currentPage, m, Count(), pageSize);
      }
    }

    /** What is known when the caller stops at the item it was just handed. */
    lemma FullFacts(m: nat)
      requires m > 0 && HasItem(m - 1)
      ensures !failed && requests == PagesFor(m, Count(), pageSize) && Reachable(requests)
    {
      PagesExact(currentPage, m, Count(), pageSize);
    }

    /** A page that was needed is down. */
    lemma FailedEarly(page: nat, m: nat)
      requires pageSize > 0 && PageDown(page) && page * pageSize <= Count()
      requires m <= Count() ==> page * pageSize < m
      ensures !Reachable(PagesFor(m, Count(), pageSize))
    {
      var p, n := pageSize, Count();
      if m <= n {
        var q := (m + p - 1) / p;
        assert m + p - 1 == q * p + (m + p - 1) % p;
        if q <= page { MulMonotone(q, page, p); }
      } else {
        var q := n / p + 1;
        assert n == (n / p) * p + n % p && q * p == (n / p) * p + p;
        if q <= page { MulMonotone(q, page, p); }
      }
      assert page < PagesFor(m, n, p);
    }

    /** The first n items, one when n is zero, with the fewest requests that show them. */
    method Take(n: nat) returns (r: Option<seq<T>>)
      requires pageSize > 0
      modifies this
      ensures r.Some? <==> Reachable(PagesFor(Max(n, 1), Count(), pageSize))
      ensures r.Some? ==> r.value == server.items[..Min(Max(n, 1), Count())]
                          && requests == PagesFor(Max(n, 1), Count(), pageSize)
      ensures r.Some? ==> (r.value == server.items[..Min(n, Count())] <==> n >= 1 || Count() == 0)
    {
      hide PagesFor, PageDown, Valid, Steady, Reachable, Gave, NoItem, HasItem, AtEnd, Consumed;
      Reset();
      var result: seq<T> := [];
      var more := Next();
      while more
        invariant |result| < Max(n, 1)
        invariant |result| <= Count() && result == server.items[..|result|]
        invariant if more then HasItem(|result|) else AtEnd(|result|)
        decreases Count() - |result|, more
      {
        ItemFacts(|result|);
        result := result + [current];
        if |result| >= n { break; }
        more := Next();
      }
      if more {
        FullFacts(|result|);
      } else {
        EndFacts(|result|, Max(n, 1));
        if failed { return None; }
      }
      r := Some(result);
    }

    /** The items that satisfy the predicate, in order. */
    method Filter(keep: T -> bool) returns (r: Option<seq<T>>, ghost at: seq<nat>)
      requires pageSize > 0
      modifies this
      ensures r.Some? <==> Reachable(PagesFor(Count() + 1, Count(), pageSize))
      ensures r.Some? ==> r.value == FilterSeq(server.items, keep) && requests == Count() / pageSize + 1
      ensures r.Some? ==> Selects(server.items, r.value, keep, at)
    {
      hide Selects, PagesFor, PageDown, Valid, Steady, Reachable, Gave, NoItem, HasItem, AtEnd, Consumed;
      Reset();
      var result: seq<T> := [];
      ghost var seen := 0;
      var more := Next();
      while more
        invariant 0 <= seen <= Count() && result == FilterSeq(server.items[..seen], keep)
        invariant if more then HasItem(seen) else AtEnd(seen)
        decreases Count() - seen, more
      {
        ItemFacts(seen);
        assert server.items[..seen + 1][..seen] == server.items[..seen];
        if keep(current) { result := result + [current]; }
        seen := seen + 1;
        more := Next();
      }
      EndFacts(seen, Count() + 1);
      at := FilterExactly(server.items, keep);
      if failed { return None, at; }
      assert server.items[..seen] == server.items;
      PagesForAll(Count(), pageSize);
      r := Some(result);
    }

    /** Visit the items in order until the callback fails, with the fewest requests that show
        the items visited; every visit succeeds exactly when all pages answer and no callback
        fails. */
    method ForEach(fails: T -> bool) returns (end: ForEachEnd, visited: seq<T>)
      requires pageSize > 0
      modifies this
      ensures |visited| <= Count() && visited == server.items[..|visited|]
      ensures end == AllVisited <==>
              Reachable(PagesFor(Count() + 1, Count(), pageSize)) && NoneFails(server.items, fails)
      ensures end == AllVisited ==> visited == server.items && requests == Count() / pageSize + 1
      ensures forall i :: 0 <= i < |visited| && (end == CallbackFailed ==> i < |visited| - 1) ==> !fails(visited[i])
      ensures end == CallbackFailed ==>
                visited != [] && fails(visited[|visited| - 1]) && NoneFails(visited[..|visited| - 1], fails)
                && requests == PagesFor(|visited|, Count(), pageSize) && Reachable(requests)
      ensures end == FetchFailed ==>
                requests > 0 && PageDown(requests - 1) && Reachable(requests - 1)
                && |visited| == (requests - 1) * pageSize && NoneFails(visited, fails)
    {
      hide PagesFor, PageDown, Valid, Steady, Reachable, Gave, NoItem, HasItem, AtEnd, Consumed, NoneFails;
      Reset();
      visited := [];
      var more := Next();
      NoneOfNone(fails);
      while more
        invariant |visited| <= Count() && visited == server.items[..|visited|]
        invariant NoneFails(visited, fails)
        invariant if more then HasItem(|visited|) else AtEnd(|visited|)
        decreases Count() - |visited|, more
      {
        ghost var n := |visited|;
        ItemFacts(n);
        NoneFailsPrefix(server.items, n, fails);
        visited := visited + [current];
        assert visited == server.items[..n + 1] && visited[..n] == server.items[..n];
        if fails(current) {
          FullFacts(|visited|);
          NoneFailsMeans(visited[..n], fails);
          return CallbackFailed, visited;
        }
        more := Next();
      }
      EndFacts(|visited|, Count() + 1);
      NoneFailsMeans(visited, fails);
      PagesForAll(Count(), pageSize);
      if failed {
        FailedAt(|visited|);
        return FetchFailed, visited;
      }
      assert visited == server.items;
      return AllVisited, visited;
    }

    lemma NoneOfNone(fails: T -> bool)
      ensures NoneFails([], fails)
    {
    }

    /** Where the failing page was. */
    lemma FailedAt(i: nat)
      requires AtEnd(i) && failed
      ensures requests > 0 && i == (requests - 1) * pageSize
    {
      assert requests - 1 == currentPage;
    }
  }
}
