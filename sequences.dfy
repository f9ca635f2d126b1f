/** `Array.prototype.filter` on sequences, and the order-preserving subsequence relation it keeps. */
module Sequences {

  /**
   * `a` can be read off `b` left to right, skipping elements of `b`. Matching
   * `a[0]` with the first equal element of `b` is enough, so the check is greedy.
   */
  predicate IsSubsequence<T(==)>(a: seq<T>, b: seq<T>)
    decreases |b|
  {
    a == [] || (b != [] && if a[0] == b[0] then IsSubsequence(a[1..], b[1..]) else IsSubsequence(a, b[1..]))
  }

  /** `s.filter(p)`: the elements satisfying `p`, in their original order. */
  function Filter<T(==,!new)>(s: seq<T>, p: T -> bool): (r: seq<T>)
    ensures |r| <= |s|
    ensures forall k :: 0 <= k < |r| ==> r[k] in s && p(r[k])
    ensures forall k :: 0 <= k < |s| && p(s[k]) ==> s[k] in r
    ensures IsSubsequence(r, s)
    ensures forall x :: multiset(r)[x] == if p(x) then multiset(s)[x] else 0
    decreases |s|
  {
    if s == [] then []
    else
      var rest := Filter(s[1..], p);
      FilterOrderStep(s, s[1..], rest, p);
      FilterCountStep(s, rest, p);
      if p(s[0]) then [s[0]] + rest else rest
  }

  /** Which elements the filter keeps, and in what order, one element further on. */
  lemma FilterOrderStep<T>(s: seq<T>, t: seq<T>, rest: seq<T>, p: T -> bool)
    requires s != [] && t == s[1..]
    requires forall k :: 0 <= k < |rest| ==> rest[k] in t && p(rest[k])
    requires forall k :: 0 <= k < |t| && p(t[k]) ==> t[k] in rest
    requires IsSubsequence(rest, t)
    ensures var r := if p(s[0]) then [s[0]] + rest else rest;
      && (forall k :: 0 <= k < |r| ==> r[k] in s && p(r[k]))
      && (forall k :: 0 <= k < |s| && p(s[k]) ==> s[k] in r)
      && IsSubsequence(r, s)
  {
    assert forall k :: 1 <= k < |s| ==> s[k] == t[k - 1];
    if p(s[0]) {
      assert ([s[0]] + rest)[1..] == rest;
    }
  }

  /** How many copies of each value the filter keeps, one element further on. */
  lemma FilterCountStep<T(!new)>(s: seq<T>, rest: seq<T>, p: T -> bool)
    requires s != []
    requires forall x :: multiset(rest)[x] == if p(x) then multiset(s[1..])[x] else 0
    ensures p(s[0]) ==> forall x :: multiset([s[0]] + rest)[x] == if p(x) then multiset(s)[x] else 0
    ensures !p(s[0]) ==> forall x :: multiset(rest)[x] == if p(x) then multiset(s)[x] else 0
  {
    assert s == [s[0]] + s[1..];
    assert multiset(s) == multiset([s[0]]) + multiset(s[1..]);
  }

  /** Filtering by a predicate and by its negation splits the sequence: nothing is lost or duplicated. */
  lemma FilterPartition<T(!new)>(s: seq<T>, p: T -> bool, q: T -> bool)
    requires forall x :: q(x) == !p(x)
    ensures |Filter(s, p)| + |Filter(s, q)| == |s|
    ensures multiset(Filter(s, p)) + multiset(Filter(s, q)) == multiset(s)
  {
    var a, b := Filter(s, p), Filter(s, q);
    forall x ensures (multiset(a) + multiset(b))[x] == multiset(s)[x] {
    }
    assert multiset(a) + multiset(b) == multiset(s);
    assert |multiset(a)| == |a| && |multiset(b)| == |b| && |multiset(s)| == |s|;
  }

  /** A predicate every element satisfies filters nothing out. */
  lemma {:induction false} FilterAll<T(!new)>(s: seq<T>, p: T -> bool)
    requires forall k :: 0 <= k < |s| ==> p(s[k])
    ensures Filter(s, p) == s
    decreases |s|
  {
    if s != [] {
      FilterAll(s[1..], p);
    }
  }

  /** Predicates that agree on every element filter the same elements. */
  lemma {:induction false} FilterCongruent<T(!new)>(s: seq<T>, p: T -> bool, q: T -> bool)
    requires forall k :: 0 <= k < |s| ==> p(s[k]) == q(s[k])
    ensures Filter(s, p) == Filter(s, q)
    decreases |s|
  {
    if s != [] {
      assert forall k :: 1 <= k < |s| ==> s[k] == s[1..][k - 1];
      FilterCongruent(s[1..], p, q);
    }
  }
}
