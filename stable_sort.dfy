/**
 * A stable sort over a comparator in the style of `Array.prototype.sort`
 * (negative: first argument goes first, zero: equal, positive: second goes
 * first). ECMA-262 (section 23.1.3.30) requires the sort to be stable; for a
 * consistent comparator that fixes the result: ordered by the comparator and
 * with every class of equal elements in input order. The sort is modelled as
 * insertion of each element in turn and proved to be that arrangement.
 */
module StableSort {

  /** `a` may precede `b`: the comparator does not put `b` first. */
  ghost predicate Le<T>(cmp: (T, T) -> int, a: T, b: T) {
    cmp(a, b) <= 0
  }

  /** The comparator is consistent: its sign flips with its arguments and `Le` is transitive. */
  ghost predicate Consistent<T(!new)>(cmp: (T, T) -> int) {
    (forall a, b :: cmp(a, b) < 0 <==> cmp(b, a) > 0)
    && (forall a, b, c {:trigger Le(cmp, a, b), Le(cmp, b, c)} :: Le(cmp, a, b) && Le(cmp, b, c) ==> Le(cmp, a, c))
  }

  /** Every earlier element may precede every later one. */
  ghost predicate Sorted<T>(cmp: (T, T) -> int, s: seq<T>) {
    forall i, j :: 0 <= i < j < |s| ==> cmp(s[i], s[j]) <= 0
  }

  /** The elements of `s` the comparator calls equal to `g`, in their order in `s`. */
  function TiedWith<T>(cmp: (T, T) -> int, g: T, s: seq<T>): seq<T> {
    if s == [] then []
    else (if cmp(s[0], g) == 0 then [s[0]] else []) + TiedWith(cmp, g, s[1..])
  }

  /** Unfolding `TiedWith` on a sequence built as one element followed by the rest. */
  lemma TiedWithCons<T>(cmp: (T, T) -> int, g: T, h: T, t: seq<T>)
    ensures TiedWith(cmp, g, [h] + t) == (if cmp(h, g) == 0 then [h] else []) + TiedWith(cmp, g, t)
  {
    assert ([h] + t)[0] == h;
    assert ([h] + t)[1..] == t;
  }

  lemma {:induction false} TiedWithConcat<T>(cmp: (T, T) -> int, g: T, a: seq<T>, b: seq<T>)
    ensures TiedWith(cmp, g, a + b) == TiedWith(cmp, g, a) + TiedWith(cmp, g, b)
  {
    if a == [] {
      assert a + b == b;
    } else {
      TiedWithConcat(cmp, g, a[1..], b);
      assert a + b == [a[0]] + (a[1..] + b);
      assert a == [a[0]] + a[1..];
      TiedWithCons(cmp, g, a[0], a[1..] + b);
      TiedWithCons(cmp, g, a[0], a[1..]);
    }
  }

  lemma {:induction false} TiedWithIsIn<T>(cmp: (T, T) -> int, g: T, s: seq<T>, x: T)
    requires x in TiedWith(cmp, g, s)
    ensures x in s && cmp(x, g) == 0
  {
    if s != [] {
      if cmp(s[0], g) == 0 && x == s[0] {
      } else {
        TiedWithIsIn(cmp, g, s[1..], x);
      }
    }
  }

  /** No element of `s` is tied with `g` when `x`, tied with `g`, strictly precedes all of them. */
  lemma {:induction false} TiedWithNone<T(!new)>(cmp: (T, T) -> int, g: T, x: T, s: seq<T>)
    requires Consistent(cmp)
    requires cmp(x, g) == 0
    requires forall j :: 0 <= j < |s| ==> cmp(x, s[j]) < 0
    ensures TiedWith(cmp, g, s) == []
  {
    if s != [] {
      assert cmp(x, s[0]) < 0;
      assert Le(cmp, s[0], g) && Le(cmp, g, x) ==> Le(cmp, s[0], x);
      TiedWithNone(cmp, g, x, s[1..]);
    }
  }

  /** The first element of a non-empty sequence is in its own tie class. */
  lemma TiedWithSelf<T(!new)>(cmp: (T, T) -> int, s: seq<T>)
    requires Consistent(cmp)
    requires s != []
    ensures TiedWith(cmp, s[0], s) != []
  {
    assert cmp(s[0], s[0]) == 0;
  }

  lemma SortedTail<T>(cmp: (T, T) -> int, s: seq<T>)
    requires s != [] && Sorted(cmp, s)
    ensures Sorted(cmp, s[1..])
  {
    forall i, j | 0 <= i < j < |s| - 1
      ensures cmp(s[1..][i], s[1..][j]) <= 0
    {
      assert s[1..][i] == s[i + 1] && s[1..][j] == s[j + 1];
    }
  }

  lemma SortedCons<T>(cmp: (T, T) -> int, h: T, t: seq<T>)
    requires Sorted(cmp, t)
    requires forall j :: 0 <= j < |t| ==> cmp(h, t[j]) <= 0
    ensures Sorted(cmp, [h] + t)
  {
    var r := [h] + t;
    forall i, j | 0 <= i < j < |r|
      ensures cmp(r[i], r[j]) <= 0
    {
      assert r[j] == t[j - 1];
      if i > 0 { assert r[i] == t[i - 1]; }
    }
  }

  /** Insert `x` after every element it does not strictly precede. */
  function Insert<T>(cmp: (T, T) -> int, x: T, s: seq<T>): (r: seq<T>)
    ensures |r| == |s| + 1
    ensures multiset(r) == multiset(s) + multiset{x}
  {
    if s == [] then [x]
    else if cmp(x, s[0]) < 0 then [x] + s
    else
      assert s == [s[0]] + s[1..];
      [s[0]] + Insert(cmp, x, s[1..])
  }

  /** Every element of `Insert(cmp, x, s)` is `x` or an element of `s`. */
  lemma InsertElements<T>(cmp: (T, T) -> int, x: T, s: seq<T>, j: int)
    requires 0 <= j < |s| + 1
    ensures Insert(cmp, x, s)[j] == x || exists k :: 0 <= k < |s| && Insert(cmp, x, s)[j] == s[k]
  {
    var r := Insert(cmp, x, s);
    assert r[j] in multiset(r);
    if r[j] != x {
      assert r[j] in multiset(s);
      assert r[j] in s;
    }
  }

  lemma {:induction false} InsertSorted<T(!new)>(cmp: (T, T) -> int, x: T, s: seq<T>)
    requires Consistent(cmp)
    requires Sorted(cmp, s)
    ensures Sorted(cmp, Insert(cmp, x, s))
  {
    if s == [] {
    } else if cmp(x, s[0]) < 0 {
      forall j | 0 <= j < |s|
        ensures cmp(x, s[j]) <= 0
      {
        if j > 0 {
          assert Le(cmp, x, s[0]) && Le(cmp, s[0], s[j]);
        }
      }
      SortedCons(cmp, x, s);
    } else {
      SortedTail(cmp, s);
      InsertSorted(cmp, x, s[1..]);
      var t := Insert(cmp, x, s[1..]);
      forall j | 0 <= j < |t|
        ensures cmp(s[0], t[j]) <= 0
      {
        InsertElements(cmp, x, s[1..], j);
        if t[j] != x {
          var k :| 0 <= k < |s| - 1 && t[j] == s[1..][k];
          assert t[j] == s[k + 1];
        }
      }
      SortedCons(cmp, s[0], t);
    }
  }

  /** An element that strictly precedes the first of a sorted sequence strictly precedes all of it. */
  lemma PrecedesAll<T(!new)>(cmp: (T, T) -> int, x: T, s: seq<T>)
    requires Consistent(cmp)
    requires Sorted(cmp, s)
    requires s != [] && cmp(x, s[0]) < 0
    ensures forall j :: 0 <= j < |s| ==> cmp(x, s[j]) < 0
  {
    forall j | 0 < j < |s|
      ensures cmp(x, s[j]) < 0
    {
      var first, y := s[0], s[j];
      assert Le(cmp, first, y);
      assert !Le(cmp, first, x);
      assert !Le(cmp, y, x);
    }
  }

  /** Inserting a later element keeps every tie class in order and appends `x` to its own class. */
  lemma {:induction false} InsertTies<T(!new)>(cmp: (T, T) -> int, g: T, x: T, s: seq<T>)
    requires Consistent(cmp)
    requires Sorted(cmp, s)
    ensures TiedWith(cmp, g, Insert(cmp, x, s))
         == TiedWith(cmp, g, s) + (if cmp(x, g) == 0 then [x] else [])
  {
    if s == [] {
      TiedWithCons(cmp, g, x, []);
      assert [x] + [] == [x];
    } else if cmp(x, s[0]) < 0 {
      TiedWithCons(cmp, g, x, s);
      if cmp(x, g) == 0 {
        PrecedesAll(cmp, x, s);
        TiedWithNone(cmp, g, x, s);
      }
    } else {
      SortedTail(cmp, s);
      InsertTies(cmp, g, x, s[1..]);
      TiedWithCons(cmp, g, s[0], Insert(cmp, x, s[1..]));
      assert s == [s[0]] + s[1..];
      TiedWithCons(cmp, g, s[0], s[1..]);
    }
  }

  /** The stable sort: insert each element, in input order, into the sorted prefix. */
  function SortBy<T(!new)>(cmp: (T, T) -> int, s: seq<T>): (r: seq<T>)
    requires Consistent(cmp)
    ensures multiset(r) == multiset(s)
    ensures |r| == |s|
  {
    if s == [] then []
    else
      var front := SortBy(cmp, s[..|s| - 1]);
      assert s == s[..|s| - 1] + [s[|s| - 1]];
      Insert(cmp, s[|s| - 1], front)
  }

  /** The result is sorted: every earlier element may precede every later one. */
  lemma {:induction false} SortBySorted<T(!new)>(cmp: (T, T) -> int, s: seq<T>)
    requires Consistent(cmp)
    ensures Sorted(cmp, SortBy(cmp, s))
  {
    if s != [] {
      SortBySorted(cmp, s[..|s| - 1]);
      InsertSorted(cmp, s[|s| - 1], SortBy(cmp, s[..|s| - 1]));
    }
  }

  /** Stability: every class of equal elements keeps its input order. */
  lemma {:induction false} SortStable<T(!new)>(cmp: (T, T) -> int, s: seq<T>, g: T)
    requires Consistent(cmp)
    ensures TiedWith(cmp, g, SortBy(cmp, s)) == TiedWith(cmp, g, s)
  {
    if s != [] {
      var front := s[..|s| - 1];
      SortStable(cmp, front, g);
      SortBySorted(cmp, front);
      SortByLast(cmp, s);
      InsertStable(cmp, g, s, SortBy(cmp, front));
    }
  }

  /** One step of `SortBy`: the last element inserted into the sorted rest. */
  lemma SortByLast<T(!new)>(cmp: (T, T) -> int, s: seq<T>)
    requires Consistent(cmp)
    requires s != []
    ensures SortBy(cmp, s) == Insert(cmp, s[|s| - 1], SortBy(cmp, s[..|s| - 1]))
  {
  }

  /** If `sorted` keeps the tie classes of all but the last of `s`, inserting the last keeps those of `s`. */
  lemma InsertStable<T(!new)>(cmp: (T, T) -> int, g: T, s: seq<T>, sorted: seq<T>)
    requires Consistent(cmp)
    requires s != []
    requires Sorted(cmp, sorted)
    requires TiedWith(cmp, g, sorted) == TiedWith(cmp, g, s[..|s| - 1])
    ensures TiedWith(cmp, g, Insert(cmp, s[|s| - 1], sorted)) == TiedWith(cmp, g, s)
  {
    var front, last := s[..|s| - 1], s[|s| - 1];
    InsertTies(cmp, g, last, sorted);
    TiedWithSnoc(cmp, g, front, last);
    assert front + [last] == s;
  }

  /** Appending one element extends its tie class, if it belongs to it, at the end. */
  lemma TiedWithSnoc<T>(cmp: (T, T) -> int, g: T, s: seq<T>, x: T)
    ensures TiedWith(cmp, g, s + [x]) == TiedWith(cmp, g, s) + (if cmp(x, g) == 0 then [x] else [])
  {
    TiedWithConcat(cmp, g, s, [x]);
    TiedWithCons(cmp, g, x, []);
    assert [x] + [] == [x];
  }

  /** Two sorted sequences with the same tie classes in the same order are equal. */
  lemma {:induction false} SortedTiesDetermine<T(!new)>(cmp: (T, T) -> int, a: seq<T>, b: seq<T>)
    requires Consistent(cmp)
    requires Sorted(cmp, a) && Sorted(cmp, b)
    requires forall g :: TiedWith(cmp, g, a) == TiedWith(cmp, g, b)
    ensures a == b
  {
    if a == [] && b == [] {
    } else if a == [] {
      TiedWithSelf(cmp, b);
    } else if b == [] {
      TiedWithSelf(cmp, a);
    } else {
      var x, y := a[0], b[0];
      assert a == [x] + a[1..] && b == [y] + b[1..];
      assert cmp(x, x) == 0 && cmp(y, y) == 0;
      TiedWithCons(cmp, y, y, b[1..]);
      TiedWithIsIn(cmp, y, a, y);
      TiedWithCons(cmp, x, x, a[1..]);
      TiedWithIsIn(cmp, x, b, x);
      assert cmp(x, y) <= 0 by {
        var j :| 0 <= j < |a| && a[j] == y;
        if j > 0 { assert cmp(a[0], a[j]) <= 0; }
      }
      assert cmp(y, x) <= 0 by {
        var j :| 0 <= j < |b| && b[j] == x;
        if j > 0 { assert cmp(b[0], b[j]) <= 0; }
      }
      TiedWithCons(cmp, x, y, b[1..]);
      assert TiedWith(cmp, x, a)[0] == x && TiedWith(cmp, x, b)[0] == y;
      assert x == y;
      forall g
        ensures TiedWith(cmp, g, a[1..]) == TiedWith(cmp, g, b[1..])
      {
        TiedWithCons(cmp, g, x, a[1..]);
        TiedWithCons(cmp, g, x, b[1..]);
        var h := if cmp(x, g) == 0 then [x] else [];
        assert TiedWith(cmp, g, a) == TiedWith(cmp, g, b);
        assert TiedWith(cmp, g, a[1..]) == (h + TiedWith(cmp, g, a[1..]))[|h|..];
        assert TiedWith(cmp, g, b[1..]) == (h + TiedWith(cmp, g, b[1..]))[|h|..];
      }
      SortedTail(cmp, a);
      SortedTail(cmp, b);
      SortedTiesDetermine(cmp, a[1..], b[1..]);
    }
  }

  /**
   * Any arrangement that is sorted and keeps every tie class in input order is
   * the result of `SortBy`: the model agrees with every stable sort.
   */
  lemma SortUnique<T(!new)>(cmp: (T, T) -> int, s: seq<T>, t: seq<T>)
    requires Consistent(cmp)
    requires Sorted(cmp, t)
    requires forall g :: TiedWith(cmp, g, t) == TiedWith(cmp, g, s)
    ensures t == SortBy(cmp, s)
  {
    forall g
      ensures TiedWith(cmp, g, t) == TiedWith(cmp, g, SortBy(cmp, s))
    {
      SortStable(cmp, s, g);
    }
    SortBySorted(cmp, s);
    SortedTiesDetermine(cmp, t, SortBy(cmp, s));
  }

  /** In a sorted sequence each of the first `k` elements may precede each of the others. */
  lemma PrefixDominates<T>(cmp: (T, T) -> int, r: seq<T>, k: nat, x: T, y: T)
    requires Sorted(cmp, r)
    requires k <= |r|
    requires x in r[..k] && y in r[k..]
    ensures cmp(x, y) <= 0
  {
    var i :| 0 <= i < k && r[..k][i] == x;
    var j :| 0 <= j < |r| - k && r[k..][j] == y;
    assert r[i] == x && r[k + j] == y;
  }

  /** An element of `s` not among the first `k` sorted elements is in the rest of the sorted result. */
  lemma LeftOut<T>(r: seq<T>, s: seq<T>, k: nat, y: T)
    requires multiset(r) == multiset(s)
    requires k <= |r|
    requires y in multiset(s) - multiset(r[..k])
    ensures y in r[k..]
  {
    assert r == r[..k] + r[k..];
    assert multiset(r) == multiset(r[..k]) + multiset(r[k..]);
    assert y in multiset(r[k..]);
  }

  /** Each of the first `k` sorted elements may precede every element left out of them. */
  lemma SortedPrefixDominates<T(!new)>(cmp: (T, T) -> int, s: seq<T>, k: nat, x: T, y: T)
    requires Consistent(cmp)
    requires k <= |s|
    requires x in SortBy(cmp, s)[..k]
    requires y in multiset(s) - multiset(SortBy(cmp, s)[..k])
    ensures cmp(x, y) <= 0
  {
    var r := SortBy(cmp, s);
    SortBySorted(cmp, s);
    LeftOut(r, s, k, y);
    PrefixDominates(cmp, r, k, x, y);
  }
}
