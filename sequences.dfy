/**
 * The array operations the pages use on the report list: `filter`, and the
 * first-occurrence de-duplication of `[...new Set(xs)]`.
 */
module Sequences {

  /** `a` can be obtained from `b` by deleting elements (order kept). */
  predicate Subsequence<T(==)>(a: seq<T>, b: seq<T>)
    decreases |b|
  {
    if a == [] then true
    else if b == [] then false
    else if a[0] == b[0] then Subsequence(a[1..], b[1..])
    else Subsequence(a, b[1..])
  }

  /** `xs.filter(p)`: the elements that satisfy `p`, in their original order. */
  function Keep<T>(xs: seq<T>, p: T -> bool): (r: seq<T>)
    ensures |r| <= |xs|
    ensures forall i :: 0 <= i < |r| ==> p(r[i])
    decreases |xs|
  {
    if xs == [] then []
    else (if p(xs[0]) then [xs[0]] else []) + Keep(xs[1..], p)
  }

  /** An element is kept exactly when it occurs and satisfies `p`. */
  lemma {:induction false} KeepMembers<T>(xs: seq<T>, p: T -> bool, x: T)
    ensures x in Keep(xs, p) <==> x in xs && p(x)
    decreases |xs|
  {
    if xs != [] {
      KeepMembers(xs[1..], p, x);
      assert x in xs <==> x == xs[0] || x in xs[1..];
    }
  }

  /** Every satisfying element is kept as often as it occurs; the others are dropped. */
  lemma {:induction false} KeepCount<T>(xs: seq<T>, p: T -> bool, x: T)
    ensures multiset(Keep(xs, p))[x] == if p(x) then multiset(xs)[x] else 0
    decreases |xs|
  {
    if xs != [] {
      KeepCount(xs[1..], p, x);
      assert xs == [xs[0]] + xs[1..];
    }
  }

  /** The kept elements keep their relative order. */
  lemma {:induction false} KeepSubsequence<T>(xs: seq<T>, p: T -> bool)
    ensures Subsequence(Keep(xs, p), xs)
    decreases |xs|
  {
    if xs != [] {
      KeepSubsequence(xs[1..], p);
      if !p(xs[0]) {
        assert Keep(xs, p) == Keep(xs[1..], p);
        SubsequenceSkip(Keep(xs[1..], p), xs);
      }
    }
  }

  /** Dropping the head of `b` still leaves a sub-sequence of `b` as long as it was one of `b[1..]`. */
  lemma {:induction false} SubsequenceSkip<T>(a: seq<T>, b: seq<T>)
    requires b != [] && Subsequence(a, b[1..])
    ensures Subsequence(a, b)
    decreases |b|, |a|
  {
    if a != [] && a[0] == b[0] {
      // Matching a[0] against b[0] instead of its match further right is no worse.
      SubsequenceTail(a, b[1..]);
    }
  }

  /** A sub-sequence of `b` without its head is a sub-sequence of `b`. */
  lemma {:induction false} SubsequenceTail<T>(a: seq<T>, b: seq<T>)
    requires a != [] && Subsequence(a, b)
    ensures Subsequence(a[1..], b)
    decreases |b|, |a|
  {
    if a[0] == b[0] {
      if a[1..] != [] {
        SubsequenceSkip(a[1..], b);
      }
    } else {
      SubsequenceTail(a, b[1..]);
      if a[1..] != [] {
        SubsequenceSkip(a[1..], b);
      }
    }
  }

  /** Nothing is dropped when every element satisfies `p`. */
  lemma {:induction false} KeepAll<T>(xs: seq<T>, p: T -> bool)
    requires forall i :: 0 <= i < |xs| ==> p(xs[i])
    ensures Keep(xs, p) == xs
    decreases |xs|
  {
    if xs != [] {
      KeepAll(xs[1..], p);
    }
  }

  predicate NoDuplicates<T(==)>(xs: seq<T>) {
    forall i, j :: 0 <= i < j < |xs| ==> xs[i] != xs[j]
  }

  /** The position of the first occurrence of `x` in `xs`. */
  function FirstIndex<T(==)>(xs: seq<T>, x: T): (i: nat)
    requires x in xs
    ensures i < |xs| && xs[i] == x
    ensures forall j :: 0 <= j < i ==> xs[j] != x
    decreases |xs|
  {
    if xs[0] == x then 0 else 1 + FirstIndex(xs[1..], x)
  }

  lemma FirstIndexAppend<T>(xs: seq<T>, y: T, x: T)
    requires x in xs
    ensures FirstIndex(xs + [y], x) == FirstIndex(xs, x)
  {
    var i := FirstIndex(xs, x);
    var j := FirstIndex(xs + [y], x);
    assert (xs + [y])[i] == x;
    assert xs[j] == x;
  }

  /**
   * `[...new Set(xs)]`: each element of `xs` once, at the place of its first
   * occurrence (a JavaScript Set iterates in insertion order).
   */
  function Distinct<T(==)>(xs: seq<T>): (r: seq<T>)
    ensures forall i :: 0 <= i < |xs| ==> xs[i] in r
    ensures forall i :: 0 <= i < |r| ==> r[i] in xs
    ensures NoDuplicates(r)
    decreases |xs|
  {
    if xs == [] then []
    else
      var init := xs[..|xs| - 1];
      var r := Distinct(init);
      var x := xs[|xs| - 1];
      assert xs == init + [x];
      if x in r then r else r + [x]
  }

  /** The de-duplicated elements appear in the order of their first occurrence. */
  lemma {:induction false} DistinctOrder<T>(xs: seq<T>)
    ensures forall i, j :: 0 <= i < j < |Distinct(xs)| ==>
              FirstIndex(xs, Distinct(xs)[i]) < FirstIndex(xs, Distinct(xs)[j])
    decreases |xs|
  {
    if xs != [] {
      var init := xs[..|xs| - 1];
      var x := xs[|xs| - 1];
      var r := Distinct(init);
      assert xs == init + [x];
      DistinctOrder(init);
      forall y | y in init ensures FirstIndex(xs, y) == FirstIndex(init, y) {
        FirstIndexAppend(init, x, y);
      }
      if x !in r {
        assert x !in init;
        assert FirstIndex(xs, x) == |init| by {
          assert forall k :: 0 <= k < |init| ==> xs[k] == init[k];
        }
        forall i, j | 0 <= i < j < |r + [x]|
          ensures FirstIndex(xs, (r + [x])[i]) < FirstIndex(xs, (r + [x])[j])
        {
          if j == |r| {
            assert (r + [x])[i] == r[i] && r[i] in init;
          } else {
            assert (r + [x])[i] == r[i] && (r + [x])[j] == r[j];
          }
        }
      }
    }
  }
}
