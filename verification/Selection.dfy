/** Picking the items of a list that satisfy a predicate. */
module Selection {
  /** The items that satisfy the predicate, in order. */
  function FilterSeq<T>(xs: seq<T>, keep: T -> bool): seq<T> {
    if xs == [] then []
    else FilterSeq(xs[..|xs| - 1], keep) + if keep(xs[|xs| - 1]) then [xs[|xs| - 1]] else []
  }

  /** `r` holds the items of `xs` at the positions `at`, in the order of the list, and these
      are exactly the positions of items that satisfy `keep`. */
  ghost predicate Selects<T>(xs: seq<T>, r: seq<T>, keep: T -> bool, at: seq<nat>) {
    && |at| == |r|
    && (forall j :: 0 <= j < |at| ==> at[j] < |xs| && r[j] == xs[at[j]] && keep(xs[at[j]]))
    && (forall j, k :: 0 <= j < k < |at| ==> at[j] < at[k])
    && (forall i :: 0 <= i < |xs| && keep(xs[i]) ==> i in at)
  }

  /** Filtering keeps every item that satisfies the predicate, as often as the list has it and
      in its order, and no other. */
  lemma {:induction false} FilterExactly<T>(xs: seq<T>, keep: T -> bool) returns (at: seq<nat>)
    ensures Selects(xs, FilterSeq(xs, keep), keep, at)
  {
    at := [];
    if xs != [] {
      hide Selects;
      var n := |xs| - 1;
      at := FilterExactly(xs[..n], keep);
      if keep(xs[n]) {
        SelectsOne(xs, FilterSeq(xs[..n], keep), keep, at);
        at := at + [n];
      } else {
        SelectsNone(xs, FilterSeq(xs[..n], keep), keep, at);
        assert FilterSeq(xs[..n], keep) + [] == FilterSeq(xs[..n], keep);
      }
    }
  }

  lemma SelectsNone<T>(xs: seq<T>, r: seq<T>, keep: T -> bool, at: seq<nat>)
    requires xs != [] && !keep(xs[|xs| - 1]) && Selects(xs[..|xs| - 1], r, keep, at)
    ensures Selects(xs, r, keep, at)
  {
    forall i | 0 <= i < |xs| && keep(xs[i]) ensures i in at {
      assert xs[..|xs| - 1][i] == xs[i];
    }
  }

  lemma SelectsOne<T>(xs: seq<T>, r: seq<T>, keep: T -> bool, at: seq<nat>)
    requires xs != [] && keep(xs[|xs| - 1]) && Selects(xs[..|xs| - 1], r, keep, at)
    ensures Selects(xs, r + [xs[|xs| - 1]], keep, at + [|xs| - 1])
  {
    var n := |xs| - 1;
    var more := at + [n];
    assert more[|at|] == n;
    forall i | 0 <= i < |xs| && keep(xs[i]) ensures i in more {
      if i < n {
        assert xs[..n][i] == xs[i];
        assert i in at;
      }
    }
  }
}
