/** Python list comprehensions with a condition, and the subsequence order they keep. */
module Seqs {

  /** No element occurs twice. */
  ghost predicate Distinct<T>(s: seq<T>) {
    forall i, j :: 0 <= i < j < |s| ==> s[i] != s[j]
  }

  /** `a` can be obtained from `b` by deleting elements, keeping the order of the rest. */
  predicate Subseq<T(==)>(a: seq<T>, b: seq<T>) {
    if |a| == 0 then true
    else if |b| == 0 then false
    else (a[0] == b[0] && Subseq(a[1..], b[1..])) || Subseq(a, b[1..])
  }

  /** `[x for x in s if p(x)]`: keeps exactly the elements that satisfy `p`. */
  function Filter<T(==)>(s: seq<T>, p: T -> bool): (r: seq<T>)
    ensures |r| <= |s|
    ensures forall x :: x in r ==> x in s && p(x)
    ensures forall x :: x in s && p(x) ==> x in r
  {
    if |s| == 0 then []
    else (if p(s[0]) then [s[0]] else []) + Filter(s[1..], p)
  }

  /** A filtered list is an order-preserving subsequence of its source. */
  lemma {:induction false} FilterSubseq<T>(s: seq<T>, p: T -> bool)
    ensures Subseq(Filter(s, p), s)
  {
    if |s| > 0 {
      FilterSubseq(s[1..], p);
      var rest := Filter(s[1..], p);
      if p(s[0]) {
        assert Filter(s, p) == [s[0]] + rest;
        assert ([s[0]] + rest)[1..] == rest;
      } else {
        assert Filter(s, p) == rest;
      }
    }
  }

  /** Two successive filters are one filter by the conjunction of their conditions. */
  lemma {:induction false} FilterFuse<T>(s: seq<T>, p: T -> bool, q: T -> bool, both: T -> bool)
    requires forall x :: both(x) <==> p(x) && q(x)
    ensures Filter(Filter(s, p), q) == Filter(s, both)
  {
    if |s| > 0 {
      FilterFuse(s[1..], p, q, both);
      var rest := Filter(s[1..], p);
      if p(s[0]) {
        assert Filter(s, p) == [s[0]] + rest;
        assert ([s[0]] + rest)[1..] == rest;
      } else {
        assert Filter(s, p) == rest;
      }
    }
  }

  /** Three successive filters are one filter by the conjunction of the three conditions. */
  lemma FilterFuse3<T>(s: seq<T>, p: T -> bool, q: T -> bool, r: T -> bool, all: T -> bool)
    requires forall x :: all(x) <==> p(x) && q(x) && r(x)
    ensures Filter(Filter(Filter(s, p), q), r) == Filter(s, all)
  {
    var pq := x => p(x) && q(x);
    FilterFuse(s, p, q, pq);
    FilterFuse(s, pq, r, all);
  }

  /** Filters whose conditions agree on every element of `s` give the same list. */
  lemma {:induction false} FilterAgree<T>(s: seq<T>, p: T -> bool, q: T -> bool)
    requires forall x :: x in s ==> (p(x) <==> q(x))
    ensures Filter(s, p) == Filter(s, q)
  {
    if |s| > 0 {
      assert forall x :: x in s[1..] ==> x in s;
      FilterAgree(s[1..], p, q);
    }
  }

  /** A condition that every element satisfies filters nothing out. */
  lemma {:induction false} FilterKeepsAll<T>(s: seq<T>, p: T -> bool)
    requires forall x :: x in s ==> p(x)
    ensures Filter(s, p) == s
  {
    if |s| > 0 {
      assert forall x :: x in s[1..] ==> x in s;
      FilterKeepsAll(s[1..], p);
    }
  }
}
