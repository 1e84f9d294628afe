/**
 * Order-preserving selection over a sequence: `Filter` keeps the elements a
 * predicate accepts (pandas boolean indexing), `FilterMap` keeps the results
 * of a conversion that may fail (a loop that appends on success and
 * `continue`s on failure).
 */
module FilterMaps {
  import opened Wrappers

  /** The elements of `xs` that `keep` accepts, in their original order. */
  function Filter<T>(xs: seq<T>, keep: T -> bool): (r: seq<T>)
    ensures |r| <= |xs|
    ensures forall x :: x in r ==> keep(x)
  {
    if xs == [] then []
    else (if keep(xs[0]) then [xs[0]] else []) + Filter(xs[1..], keep)
  }

  /** Filtering distributes over concatenation: no element moves past another. */
  lemma {:induction false} FilterAppend<T>(xs: seq<T>, ys: seq<T>, keep: T -> bool)
    ensures Filter(xs + ys, keep) == Filter(xs, keep) + Filter(ys, keep)
  {
    if xs != [] {
      assert (xs + ys)[1..] == xs[1..] + ys;
      FilterAppend(xs[1..], ys, keep);
    } else {
      assert xs + ys == ys;
    }
  }

  /** An element survives the filter exactly when it was present and accepted. */
  lemma {:induction false} FilterMember<T>(xs: seq<T>, keep: T -> bool, x: T)
    ensures x in Filter(xs, keep) <==> x in xs && keep(x)
  {
    if xs != [] {
      FilterMember(xs[1..], keep, x);
      assert xs == [xs[0]] + xs[1..];
    }
  }

  /** The filter drops elements but never adds or duplicates one. */
  lemma {:induction false} FilterSubMultiset<T>(xs: seq<T>, keep: T -> bool)
    ensures multiset(Filter(xs, keep)) <= multiset(xs)
  {
    if xs != [] {
      FilterSubMultiset(xs[1..], keep);
      assert xs == [xs[0]] + xs[1..];
    }
  }

  /** Two predicates that agree everywhere select the same elements. */
  lemma {:induction false} FilterExtensional<T>(xs: seq<T>, p: T -> bool, q: T -> bool)
    requires forall x :: p(x) == q(x)
    ensures Filter(xs, p) == Filter(xs, q)
  {
    if xs != [] {
      FilterExtensional(xs[1..], p, q);
    }
  }

  /** Filtering by `p` and then by `q` is filtering once by their conjunction. */
  lemma {:induction false} FilterTwice<T>(xs: seq<T>, p: T -> bool, q: T -> bool, both: T -> bool)
    requires forall x :: both(x) == (p(x) && q(x))
    ensures Filter(Filter(xs, p), q) == Filter(xs, both)
  {
    if xs != [] {
      FilterTwice(xs[1..], p, q, both);
      FilterAppend((if p(xs[0]) then [xs[0]] else []), Filter(xs[1..], p), q);
    }
  }

  /** A predicate that accepts everything keeps the whole sequence. */
  lemma {:induction false} FilterKeepsAll<T>(xs: seq<T>, keep: T -> bool)
    requires forall i :: 0 <= i < |xs| ==> keep(xs[i])
    ensures Filter(xs, keep) == xs
  {
    if xs != [] {
      FilterKeepsAll(xs[1..], keep);
      assert xs == [xs[0]] + xs[1..];
    }
  }

  /** The successful conversions of `xs` under `f`, in order. */
  function FilterMap<C, A>(xs: seq<C>, f: C -> Option<A>): (r: seq<A>)
    ensures |r| <= |xs|
  {
    if xs == [] then []
    else (match f(xs[0]) case Some(a) => [a] case None => []) + FilterMap(xs[1..], f)
  }

  /** A failing element is skipped without affecting what comes after it. */
  lemma {:induction false} FilterMapAppend<C, A>(xs: seq<C>, ys: seq<C>, f: C -> Option<A>)
    ensures FilterMap(xs + ys, f) == FilterMap(xs, f) + FilterMap(ys, f)
  {
    if xs != [] {
      assert (xs + ys)[1..] == xs[1..] + ys;
      FilterMapAppend(xs[1..], ys, f);
    } else {
      assert xs + ys == ys;
    }
  }

  /** Appending one element appends its conversion when it succeeds. */
  lemma FilterMapSnoc<C, A>(xs: seq<C>, x: C, f: C -> Option<A>)
    ensures FilterMap(xs + [x], f) == FilterMap(xs, f) + (match f(x) case Some(a) => [a] case None => [])
  {
    FilterMapAppend(xs, [x], f);
  }

  /** Nothing is lost exactly when every element converts. */
  lemma {:induction false} FilterMapComplete<C, A>(xs: seq<C>, f: C -> Option<A>)
    ensures |FilterMap(xs, f)| == |xs| <==> forall i :: 0 <= i < |xs| ==> f(xs[i]).Some?
  {
    if xs != [] {
      FilterMapComplete(xs[1..], f);
      assert forall i :: 1 <= i < |xs| ==> xs[i] == xs[1..][i - 1];
    }
  }

  /** Every result is the conversion of some element, and every successful conversion is a result. */
  lemma {:induction false} FilterMapMember<C, A>(xs: seq<C>, f: C -> Option<A>, a: A)
    ensures a in FilterMap(xs, f) <==> exists i :: 0 <= i < |xs| && f(xs[i]) == Some(a)
  {
    if xs != [] {
      FilterMapMember(xs[1..], f, a);
      if exists i :: 0 <= i < |xs| && f(xs[i]) == Some(a) {
        var i :| 0 <= i < |xs| && f(xs[i]) == Some(a);
        if i > 0 {
          assert xs[1..][i - 1] == xs[i];
        }
      }
      if exists i :: 0 <= i < |xs[1..]| && f(xs[1..][i]) == Some(a) {
        var i :| 0 <= i < |xs[1..]| && f(xs[1..][i]) == Some(a);
        assert xs[i + 1] == xs[1..][i];
      }
    }
  }
}
