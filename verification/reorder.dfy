/** The order in which a directory lists its entries is not specified, and
    accumulation is commutative addition: listing the children of any
    directories of a tree in another order changes neither the total nor
    whether the walk fails (only WHICH failure is met first may change). */
module Reorder {
  import opened FsTree
  import opened Walk

  /** `ds` without its entry at index `j`. */
  function Without(ds: seq<Entry>, j: nat): (r: seq<Entry>)
    requires j < |ds|
    ensures |r| == |ds| - 1
  {
    ds[..j] + ds[j + 1..]
  }

  /** `b` is `a` with the listings of any of its directories, at any depth,
      put in another order. */
  ghost predicate Reordered(a: Entry, b: Entry)
    decreases a, 1
  {
    match a
    case Dir(cs) => b.Dir? && PermutedBy(cs, b.children)
    case _ => b == a
  }

  /** `ds` is a reordering of `cs` whose matched entries are themselves
      `Reordered`: the first entry of `cs` matches some entry of `ds`, and
      the rest of `cs` is a reordering of the rest of `ds`. */
  ghost predicate PermutedBy(cs: seq<Entry>, ds: seq<Entry>)
    decreases cs, 0
  {
    if cs == [] then ds == []
    else exists j :: 0 <= j < |ds| && Reordered(cs[0], ds[j]) && PermutedBy(cs[1..], Without(ds, j))
  }

  /** Taking one entry out of a listing takes out its total and its
      faultiness, and nothing else. */
  lemma {:induction false} WithoutSplits(ds: seq<Entry>, j: nat)
    requires j < |ds|
    ensures TotalOf(ds) == Total(ds[j]) + TotalOf(Without(ds, j))
    ensures FaultyOf(ds) <==> Faulty(ds[j]) || FaultyOf(Without(ds, j))
  {
    var pre, x, post := ds[..j], ds[j], ds[j + 1..];
    assert ds == pre + ([x] + post);
    OfCons(x, post);
    TotalOfAppend(pre, [x] + post);
    TotalOfAppend(pre, post);
    FaultyOfAppend(pre, [x] + post);
    FaultyOfAppend(pre, post);
  }

  /** Reordering preserves the total and whether a failure is reachable. */
  lemma {:induction false} ReorderedKeepsTotal(a: Entry, b: Entry)
    requires Reordered(a, b)
    ensures Total(a) == Total(b)
    ensures Faulty(a) <==> Faulty(b)
    decreases a, 1
  {
    if a.Dir? {
      PermutedKeepsTotal(a.children, b.children);
    }
  }

  /** `ReorderedKeepsTotal` for listings. */
  lemma {:induction false} PermutedKeepsTotal(cs: seq<Entry>, ds: seq<Entry>)
    requires PermutedBy(cs, ds)
    ensures TotalOf(cs) == TotalOf(ds)
    ensures FaultyOf(cs) <==> FaultyOf(ds)
    decreases cs, 0
  {
    if cs != [] {
      var j :| 0 <= j < |ds| && Reordered(cs[0], ds[j]) && PermutedBy(cs[1..], Without(ds, j));
      ReorderedKeepsTotal(cs[0], ds[j]);
      PermutedKeepsTotal(cs[1..], Without(ds, j));
      WithoutSplits(ds, j);
    }
  }

  /** Every tree is a reordering of itself. */
  lemma {:induction false} ReorderedRefl(a: Entry)
    ensures Reordered(a, a)
    decreases a, 1
  {
    if a.Dir? {
      PermutedRefl(a.children);
    }
  }

  /** Every listing is a reordering of itself. */
  lemma {:induction false} PermutedRefl(cs: seq<Entry>)
    ensures PermutedBy(cs, cs)
    decreases cs, 0
  {
    if cs != [] {
      ReorderedRefl(cs[0]);
      PermutedRefl(cs[1..]);
      assert Without(cs, 0) == cs[1..];
    }
  }

  /** Listing the same entries of one directory in any order (the same
      multiset of children) is a reordering. */
  lemma {:induction false} PermutationIsReordering(cs: seq<Entry>, ds: seq<Entry>)
    requires multiset(cs) == multiset(ds)
    ensures PermutedBy(cs, ds)
    ensures Reordered(Dir(cs), Dir(ds))
    decreases |cs|
  {
    if cs == [] {
      assert |ds| == |multiset(ds)| == 0;
    } else {
      var x := cs[0];
      assert x in multiset(ds);
      var j :| 0 <= j < |ds| && ds[j] == x;
      assert cs == [x] + cs[1..];
      assert ds == ds[..j] + [x] + ds[j + 1..];
      calc {
        multiset(cs[1..]);
        multiset(cs) - multiset{x};
        multiset(ds) - multiset{x};
        multiset(ds[..j]) + multiset(ds[j + 1..]);
        multiset(Without(ds, j));
      }
      PermutationIsReordering(cs[1..], Without(ds, j));
      ReorderedRefl(x);
    }
  }

  /** The walk does not depend on listing order: over two reorderings of
      one tree it completes for both or aborts for both, and when it
      completes it adds the same amount. */
  lemma ReorderedWalk(a: Entry, b: Entry)
    requires Reordered(a, b)
    ensures Replay(Trace(a)).outcome.Completed? <==> Replay(Trace(b)).outcome.Completed?
    ensures Replay(Trace(a)).outcome.Completed? ==> Replay(Trace(a)).added == Replay(Trace(b)).added
  {
    ReorderedKeepsTotal(a, b);
    ReplayTrace(a);
    ReplayTrace(b);
  }
}
