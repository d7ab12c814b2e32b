/** `Array.prototype.filter` and `slice(0, n)` on sequences, with the facts the catalog uses. */
module Seqs {

  /** `a` is `b` with some elements removed and the rest kept in order. */
  ghost predicate SubseqOf<T>(a: seq<T>, b: seq<T>)
    decreases |b|
  {
    if a == [] then true
    else if b == [] then false
    else (a[0] == b[0] && SubseqOf(a[1..], b[1..])) || SubseqOf(a, b[1..])
  }

  /** A prefix of a subsequence is still a subsequence. */
  lemma {:induction false} SubseqPrefix<T>(a: seq<T>, b: seq<T>, k: nat)
    requires SubseqOf(a, b) && k <= |a|
    ensures SubseqOf(a[..k], b)
    decreases |b|
  {
    if k > 0 {
      if a[0] == b[0] && SubseqOf(a[1..], b[1..]) {
        SubseqPrefix(a[1..], b[1..], k - 1);
        assert a[..k][1..] == a[1..][..k - 1];
      } else {
        SubseqPrefix(a, b[1..], k);
      }
    }
  }

  /** `s.filter(p)`: the elements satisfying `p`, in their order in `s`. */
  function Filter<T(!new)>(s: seq<T>, p: T -> bool): (r: seq<T>)
    ensures |r| <= |s|
    ensures forall x :: x in r <==> x in s && p(x)
    ensures forall i :: 0 <= i < |r| ==> p(r[i])
  {
    if s == [] then []
    else
      var rest := Filter(s[1..], p);
      assert forall x :: x in s <==> x == s[0] || x in s[1..];
      if p(s[0]) then [s[0]] + rest else rest
  }

  /** The filter keeps every copy of an element that satisfies `p` and no copy of one that does not. */
  lemma {:induction false} FilterCount<T(!new)>(s: seq<T>, p: T -> bool, x: T)
    ensures multiset(Filter(s, p))[x] == if p(x) then multiset(s)[x] else 0
  {
    if s != [] {
      FilterCount(s[1..], p, x);
      assert s == [s[0]] + s[1..];
      assert multiset(s) == multiset{s[0]} + multiset(s[1..]);
    }
  }

  lemma {:induction false} FilterSubseq<T(!new)>(s: seq<T>, p: T -> bool)
    ensures SubseqOf(Filter(s, p), s)
  {
    if s != [] {
      FilterSubseq(s[1..], p);
      if !p(s[0]) && Filter(s[1..], p) != [] {
        assert Filter(s, p) == Filter(s[1..], p);
      }
    }
  }

  /** The filter keeps every element when all of them satisfy `p`. */
  lemma {:induction false} FilterAll<T(!new)>(s: seq<T>, p: T -> bool)
    requires forall x :: x in s ==> p(x)
    ensures Filter(s, p) == s
  {
    if s != [] {
      FilterAll(s[1..], p);
    }
  }

  /** Filtering twice with the same predicate is filtering once. */
  lemma FilterIdempotent<T(!new)>(s: seq<T>, p: T -> bool)
    ensures Filter(Filter(s, p), p) == Filter(s, p)
  {
    FilterAll(Filter(s, p), p);
  }

  /** The filter depends only on the values of the predicate. */
  lemma {:induction false} FilterExt<T(!new)>(s: seq<T>, p: T -> bool, q: T -> bool)
    requires forall x :: x in s ==> p(x) == q(x)
    ensures Filter(s, p) == Filter(s, q)
  {
    if s != [] {
      FilterExt(s[1..], p, q);
    }
  }

  /** Filtering by `p` and then by `q` is filtering once by their conjunction. */
  lemma {:induction false} FilterFuse<T(!new)>(s: seq<T>, p: T -> bool, q: T -> bool, pq: T -> bool)
    requires forall x :: x in s ==> pq(x) == (p(x) && q(x))
    ensures Filter(Filter(s, p), q) == Filter(s, pq)
  {
    if s != [] {
      FilterFuse(s[1..], p, q, pq);
    }
  }

  /** `s.slice(0, n)` for a natural `n`. */
  function Take<T>(s: seq<T>, n: nat): (r: seq<T>)
    ensures |r| == if n < |s| then n else |s|
    ensures r == s[..|r|]
  {
    if n < |s| then s[..n] else s
  }
}
