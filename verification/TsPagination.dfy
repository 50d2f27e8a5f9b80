/** The lazy page iterator of the TypeScript SDK, whose state survives between calls. */
module TsPagination {
  import opened Numbers
  import opened Wrappers

  function Flatten<T>(parts: seq<seq<T>>): seq<T> {
    if parts == [] then [] else Flatten(parts[..|parts| - 1]) + parts[|parts| - 1]
  }

  lemma FlattenAppend<T>(parts: seq<seq<T>>, part: seq<T>)
    ensures Flatten(parts + [part]) == Flatten(parts) + part
  {
    assert (parts + [part])[..|parts|] == parts;
  }

  lemma FlattenNone<T>()
    ensures Flatten<T>([]) == []
  {
  }

  lemma Adjoin<T>(s: seq<T>, a: int, b: int, c: int)
    requires 0 <= a <= b <= c <= |s|
    ensures s[a..b] + s[b..c] == s[a..c]
    ensures c == |s| ==> s[a..c] == s[a..] && s[b..c] == s[b..]
  {
  }

  /** The pages requested so far are the first ones, each once, and `skip` is the next. */
  predicate Offsets(requested: seq<int>, skip: int, pageSize: int) {
    && skip == |requested| * pageSize
    && forall k :: 0 <= k < |requested| ==> requested[k] == k * pageSize
  }

  lemma NextOffset(requested: seq<int>, skip: int, pageSize: int)
    requires Offsets(requested, skip, pageSize)
    ensures Offsets(requested + [skip], skip + pageSize, pageSize)
  {
    assert (|requested| + 1) * pageSize == |requested| * pageSize + pageSize;
  }

  lemma NoOffsets(skip: int, pageSize: int)
    ensures Offsets([], skip, pageSize) ==> skip == 0
  {
  }

  lemma OneOffset(skip: int, pageSize: int)
    ensures Offsets([0], skip, pageSize) ==> skip == pageSize
  {
  }

  lemma LaterOffset(i: int, j: int, pageSize: int)
    requires i < j && pageSize > 0
    ensures i * pageSize < j * pageSize && (i + 1) * pageSize == i * pageSize + pageSize
  {
    assert j * pageSize == i * pageSize + (j - i) * pageSize;
    assert (j - i) * pageSize > 0;
  }

  /** The list as pages of the given size serve it; a request for no items gets none. */
  function Served<T>(backing: seq<T>, pageSize: int): seq<T> { if pageSize > 0 then backing else [] }

  function Page<T>(backing: seq<T>, skip: int, limit: int): seq<T> {
    if limit <= 0 || skip < 0 || skip > |backing| then []
    else backing[skip..Min(skip + limit, |backing|)]
  }

  class PageIterator<T> {
    const backing: seq<T>
    const pageSize: int
    var items: seq<T>
    var index: nat
    var skip: int
    var exhausted: bool
    var initialized: bool
    /** The offsets requested so far. */
    ghost var requested: seq<int>

    ghost predicate Valid()
      reads this
    {
      && index <= |items|
      && Offsets(requested, skip, pageSize)
      && (initialized <==> requested != [])
      && (if !initialized || pageSize <= 0 then items == [] && !exhausted
          else skip >= pageSize && skip - pageSize <= |backing|
               && items == backing[skip - pageSize..Min(skip, |backing|)]
               && (exhausted <==> |backing| < skip))
    }

    /** What iteration yields in all: the backing list, or nothing for a page size of zero
        or less. */
    ghost function Whole(): seq<T> { Served(backing, pageSize) }

    /** How many items have been yielded. */
    ghost function Consumed(): int
      reads this
    {
      if initialized && pageSize > 0 then skip - pageSize + index else 0
    }

    /** Items of the current page have not been yielded yet, or it was the last one. */
    ghost predicate NeedsNoPage()
      reads this
    {
      index < |items| || exhausted
    }

    constructor (backing: seq<T>, pageSize: int)
      ensures Valid() && Consumed() == 0 && this.backing == backing && this.pageSize == pageSize && requested == []
    {
      this.backing, this.pageSize := backing, pageSize;
      items, index, skip, exhausted, initialized, requested := [], 0, 0, false, false, [];
    }

    method FetchNextPage()
      requires Valid() && !exhausted && index == |items|
      modifies this
      ensures Valid() && initialized && index == 0 && Consumed() == old(Consumed())
      ensures requested == old(requested) + [old(skip)]
    {
      hide Offsets;
      NextOffset(requested, skip, pageSize);
      if !initialized { NoOffsets(skip, pageSize); }
      requested := requested + [skip];
      items := Page(backing, skip, pageSize);
      index := 0;
      skip := skip + pageSize;
      exhausted := |items| < pageSize;
      initialized := true;
    }

    /** One turn of the generator: the next item, or nothing once all have been yielded; a
        page is requested exactly when the last one is used up and was full. */
    method NextItem() returns (item: Option<T>)
      requires Valid()
      modifies this
      ensures Valid()
      ensures item.Some? ==> old(Consumed()) < |Whole()| && item.value == Whole()[old(Consumed())]
                             && Consumed() == old(Consumed()) + 1
      ensures item.None? ==> Consumed() == old(Consumed()) == |Whole()|
      ensures requested == if old(NeedsNoPage()) then old(requested) else old(requested) + [old(skip)]
    {
      hide Offsets, Served, Whole, Page, Min;
      if index >= |items| {
        if exhausted {
          NoneLeft();
          return None;
        }
        FetchNextPage();
        if |items| == 0 {
          NoneLeft();
          return None;
        }
      }
      ItemHere();
      item := Some(items[index]);
      index := index + 1;
    }

    lemma ItemHere()
      requires Valid() && index < |items|
      ensures initialized && pageSize > 0 && 0 <= Consumed() < |Whole()| && items[index] == Whole()[Consumed()]
    {
      hide Offsets;
    }

    lemma NoneLeft()
      requires Valid() && index == |items| && (exhausted || (initialized && items == []))
      ensures Consumed() == |Whole()|
    {
      hide Offsets;
    }

    /** The next n items (one when n is zero), as many as are left. */
    method Take(n: nat) returns (results: seq<T>)
      requires Valid()
      modifies this
      ensures Valid() && 0 <= old(Consumed()) <= Consumed() <= |Whole()|
      ensures results == Whole()[old(Consumed())..Consumed()]
      ensures Consumed() == Min(old(Consumed()) + Max(n, 1), |Whole()|)
      ensures pageSize > 0 ==> Consumed() <= |backing| && results == backing[old(Consumed())..Consumed()]
      ensures pageSize <= 0 ==> results == []
    {
      WholeIs();
      hide Valid, Consumed, Whole, NeedsNoPage;
      StartInRange();
      results := [];
      var item := NextItem();
      ghost var start := old(Consumed());
      while item.Some?
        invariant Valid() && |results| < Max(n, 1)
        invariant 0 <= start && start + |results| <= |Whole()|
        invariant results == Whole()[start..start + |results|]
        invariant item.Some? ==>
                    Consumed() == start + |results| + 1 <= |Whole()| && item.value == Whole()[start + |results|]
        invariant item.None? ==> Consumed() == start + |results| == |Whole()|
        decreases |Whole()| - |results|, item.Some?
      {
        results := results + [item.value];
        if |results| >= n { break; }
        item := NextItem();
      }
    }

    /** Everything not yet yielded. */
    method All() returns (results: seq<T>)
      requires Valid()
      modifies this
      ensures Valid() && Consumed() == |Whole()|
      ensures 0 <= old(Consumed()) <= |Whole()| && results == Whole()[old(Consumed())..]
      ensures pageSize > 0 ==> old(Consumed()) <= |backing| && results == backing[old(Consumed())..]
      ensures pageSize <= 0 ==> results == []
    {
      WholeIs();
      hide Valid, Consumed, Whole, NeedsNoPage;
      StartInRange();
      results := [];
      var item := NextItem();
      ghost var start := old(Consumed());
      while item.Some?
        invariant Valid()
        invariant 0 <= start && start + |results| <= |Whole()|
        invariant results == Whole()[start..start + |results|]
        invariant item.Some? ==>
                    Consumed() == start + |results| + 1 <= |Whole()| && item.value == Whole()[start + |results|]
        invariant item.None? ==> Consumed() == start + |results| == |Whole()|
        decreases |Whole()| - |results|, item.Some?
      {
        results := results + [item.value];
        item := NextItem();
      }
    }

    /** Any series of takes followed by `all` yields every remaining item once, in order,
        wherever in a page each take stops; and no page is requested twice. */
    method TakesThenAll(ns: seq<nat>) returns (parts: seq<seq<T>>)
      requires Valid()
      modifies this
      ensures Valid() && |parts| == |ns| + 1
      ensures 0 <= old(Consumed()) <= |Whole()| && Flatten(parts) == Whole()[old(Consumed())..]
      ensures pageSize > 0 ==> old(Consumed()) <= |backing| && Flatten(parts) == backing[old(Consumed())..]
      ensures pageSize > 0 ==> forall i, j :: 0 <= i < j < |requested| ==> requested[i] < requested[j]
      ensures pageSize > 0 ==> (|requested| - 1) * pageSize <= |backing|
    {
      hide Valid, Min, Max, Consumed, Flatten, Served, Whole;
      parts := [];
      ghost var start := Consumed();
      StartInRange();
      FlattenNone<T>();
      for k := 0 to |ns|
        invariant Valid() && |parts| == k && 0 <= start <= Consumed() <= |Whole()|
        invariant Flatten(parts) == Whole()[start..Consumed()]
      {
        ghost var c := Consumed();
        var part := Take(ns[k]);
        FlattenAppend(parts, part);
        parts := parts + [part];
        Adjoin(Whole(), start, c, Consumed());
      }
      ghost var c := Consumed();
      var part := All();
      FlattenAppend(parts, part);
      parts := parts + [part];
      Adjoin(Whole(), start, c, |Whole()|);
      WholeIs();
      if pageSize > 0 { PagesOnce(); }
    }

    lemma WholeIs()
      ensures Whole() == if pageSize > 0 then backing else []
    {
    }

    lemma StartInRange()
      requires Valid()
      ensures 0 <= Consumed() <= |Whole()|
    {
      hide Offsets;
    }

    lemma PagesOnce()
      requires Valid() && pageSize > 0
      ensures forall i, j :: 0 <= i < j < |requested| ==> requested[i] < requested[j]
      ensures (|requested| - 1) * pageSize <= |backing|
    {
      forall i, j | 0 <= i < j < |requested| ensures requested[i] < requested[j] {
        LaterOffset(i, j, pageSize);
      }
      LaterOffset(|requested| - 1, |requested|, pageSize);
    }

    /** The page fetched last, which is the first page only before iteration goes on. */
    method FirstPage() returns (page: seq<T>)
      requires Valid()
      modifies this
      ensures Valid() && Consumed() == old(Consumed())
      ensures page == items && requested != []
      ensures old(!initialized) ==> page == Whole()[..Min((if pageSize > 0 then pageSize else 0), |Whole()|)]
    {
      hide Offsets;
      if !initialized {
        NoOffsets(skip, pageSize);
        FetchNextPage();
        OneOffset(skip, pageSize);
      }
      page := items;
    }
  }
}
