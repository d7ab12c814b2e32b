/**
 * Pagination of the games page: twelve games per page, `Math.ceil` for the
 * page count, `Array.prototype.slice` (with its negative-index rules) for the
 * current page, and the window of at most seven page buttons.
 */
module Pagination {

  const PageSize: nat := 12

  /** `Math.ceil(n / 12)` for a natural `n`. */
  function TotalPages(n: nat): (r: nat)
    ensures r * PageSize >= n
    ensures r > 0 ==> (r - 1) * PageSize < n
    ensures r == 0 <==> n == 0
  {
    (n + PageSize - 1) / PageSize
  }

  /** How `slice` turns an argument into a position: negative counts from the end, then clamp to `[0, len]`. */
  function Position(k: int, len: nat): (p: nat)
    ensures p <= len
    ensures k < 0 ==> p == if len + k < 0 then 0 else len + k
    ensures k >= 0 ==> p == if k < len then k else len
  {
    if k < 0 then (if len + k < 0 then 0 else len + k)
    else if k < len then k else len
  }

  /** `s.slice(start, end)`: empty when the end position is not past the start position. */
  function Slice<T>(s: seq<T>, start: int, end: int): (r: seq<T>)
    ensures var from, to := Position(start, |s|), Position(end, |s|);
      if from < to then r == s[from..to] else r == []
  {
    var from, to := Position(start, |s|), Position(end, |s|);
    if from < to then s[from..to] else []
  }

  /** Adjacent slices join: cutting at `b` loses and repeats nothing between `a` and `c`. */
  lemma SliceConcat<T>(s: seq<T>, a: nat, b: nat, c: nat)
    requires a <= b <= c
    ensures Slice(s, a, b) + Slice(s, b, c) == Slice(s, a, c)
  {
    var pa, pb, pc := Position(a, |s|), Position(b, |s|), Position(c, |s|);
    if pa < pb && pb < pc {
      assert s[pa..pc] == s[pa..pb] + s[pb..pc];
    }
  }

  /** A negative start counts from the end: `slice(-k)` is the last `k` elements (all of them when `k` is too large). */
  lemma SliceFromEnd<T>(s: seq<T>, k: nat)
    requires k > 0
    ensures Slice(s, -(k as int), |s|) == if k <= |s| then s[|s| - k..] else s
  {
    assert s[..] == s;
    if k <= |s| {
      assert s[|s| - k..|s|] == s[|s| - k..];
    }
  }

  /** A slice is the run of the list starting at its start position, as long as the two positions allow. */
  lemma SliceElements<T>(s: seq<T>, start: int, end: int)
    ensures var from, to := Position(start, |s|), Position(end, |s|);
      |Slice(s, start, end)| == (if from < to then to - from else 0)
      && forall i :: 0 <= i < |Slice(s, start, end)| ==> Slice(s, start, end)[i] == s[from + i]
  {
  }

  /** The index of the first game on `page`. */
  function PageStart(page: int): int {
    (page - 1) * PageSize
  }

  /** `currentGames`: the slice from `(page - 1) * 12` to twelve positions further. */
  function PageItems<T>(s: seq<T>, page: int): seq<T> {
    Slice(s, PageStart(page), PageStart(page) + PageSize)
  }

  /**
   * For a page from 1 on, the page holds the games from its start position on,
   * in their order, up to twelve of them or up to the end of the list.
   */
  lemma PageItemsContents<T>(s: seq<T>, page: int)
    requires page >= 1
    ensures var start := PageStart(page);
      |PageItems(s, page)| == (if start >= |s| then 0 else if |s| - start < PageSize then |s| - start else PageSize)
      && forall i :: 0 <= i < |PageItems(s, page)| ==> PageItems(s, page)[i] == s[start + i]
  {
  }

  /** Whatever the page number, even zero or negative, a page never holds more than twelve games. */
  lemma PageItemsAtMostTwelve<T>(s: seq<T>, page: int)
    ensures |PageItems(s, page)| <= PageSize
  {
  }

  /** A page number past the last page shows nothing. */
  lemma PageBeyondLastEmpty<T>(s: seq<T>, page: int)
    requires page > TotalPages(|s|)
    ensures PageItems(s, page) == []
  {
  }

  /** The last page of a non-empty list holds between one and twelve games. */
  lemma LastPageNonEmpty<T>(s: seq<T>)
    requires |s| > 0
    ensures 1 <= |PageItems(s, TotalPages(|s|))| <= PageSize
  {
  }

  /** Pages `1..k` one after the other. */
  function PagesUpTo<T>(s: seq<T>, k: nat): seq<T> {
    if k == 0 then [] else PagesUpTo(s, k - 1) + PageItems(s, k)
  }

  /** The first `k` pages are the first `12 * k` games (or all of them). */
  lemma {:induction false} PagesUpToPrefix<T>(s: seq<T>, k: nat)
    ensures PagesUpTo(s, k) == s[..if k * PageSize < |s| then k * PageSize else |s|]
  {
    if k > 0 {
      PagesUpToPrefix(s, k - 1);
      var a := if (k - 1) * PageSize < |s| then (k - 1) * PageSize else |s|;
      var b := if k * PageSize < |s| then k * PageSize else |s|;
      assert PageItems(s, k) == s[a..b];
      assert s[..b] == s[..a] + s[a..b];
    }
  }

  /** Paging loses and repeats nothing: pages `1..totalPages` together are the whole list. */
  lemma PagesCoverAll<T>(s: seq<T>)
    ensures PagesUpTo(s, TotalPages(|s|)) == s
  {
    PagesUpToPrefix(s, TotalPages(|s|));
  }

  /** The pagination bar is drawn only when there is more than one page. */
  predicate ShowPagination(total: nat) {
    total > 1
  }

  /** The page number of the `i`-th of the `min(total, 7)` buttons. */
  function ButtonPage(total: nat, current: int, i: nat): int {
    if total <= 7 then i + 1
    else if current <= 4 then i + 1
    else if current >= total - 3 then total - 6 + i
    else current - 3 + i
  }

  function Min(a: nat, b: nat): nat { if a < b then a else b }

  /** The numbers on the page buttons, left to right. */
  function PageWindow(total: nat, current: int): (w: seq<int>)
    ensures |w| == Min(total, 7)
    ensures forall i :: 0 <= i < |w| ==> w[i] == ButtonPage(total, current, i)
  {
    seq(Min(total, 7), (i: int) requires 0 <= i => ButtonPage(total, current, i))
  }

  /**
   * The buttons are `min(total, 7)` consecutive page numbers, all existing
   * pages, whatever the current page is (even a page past the end).
   */
  lemma PageWindowRange(total: nat, current: int)
    ensures forall i :: 0 <= i < |PageWindow(total, current)| ==> 1 <= PageWindow(total, current)[i] <= total
    ensures forall i :: 0 < i < |PageWindow(total, current)| ==>
              PageWindow(total, current)[i] == PageWindow(total, current)[i - 1] + 1
  {
  }

  /** The current page, when it exists, is always among the buttons. */
  lemma PageWindowHasCurrent(total: nat, current: int)
    requires 1 <= current <= total
    ensures current in PageWindow(total, current)
  {
    var w := PageWindow(total, current);
    if total <= 7 || current <= 4 {
      assert w[current - 1] == current;
    } else if current >= total - 3 {
      assert w[current - total + 6] == current;
    } else {
      assert w[3] == current;
    }
  }

  /** "Anterior" is disabled exactly on page 1; "Siguiente" exactly on the last page. */
  /** More than one page exactly when the list does not fit on one page. */
  lemma ShowPaginationIff(n: nat)
    ensures ShowPagination(TotalPages(n)) <==> n > PageSize
  {
  }

  predicate PrevEnabled(current: int) { current != 1 }

  predicate NextEnabled(total: nat, current: int) { current != total }

  /** From an existing page the enabled arrows and the buttons lead to an existing page. */
  lemma NavigationStaysInRange(total: nat, current: int)
    requires 1 <= current <= total
    ensures PrevEnabled(current) ==> 1 <= current - 1 <= total
    ensures NextEnabled(total, current) ==> 1 <= current + 1 <= total
    ensures forall p :: p in PageWindow(total, current) ==> 1 <= p <= total
  {
    PageWindowRange(total, current);
  }

  /**
   * A page number left past the end (the list shrank without a page reset)
   * shows nothing, and "Siguiente" stays enabled and moves still further out.
   */
  lemma StalePageDrifts<T>(s: seq<T>, current: int)
    requires current > TotalPages(|s|)
    ensures PageItems(s, current) == []
    ensures NextEnabled(TotalPages(|s|), current) && current + 1 > TotalPages(|s|)
  {
  }
}
