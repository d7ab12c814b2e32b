/**
 * The games page: the filter panel that rewrites the shared criteria, the sort
 * selector, and the page of twelve games taken from the sorted visible list.
 */
module GamesPage {
  import opened Types
  import Catalog
  import GameOrder
  import Pagination
  import Seqs

  datatype ViewMode = Grid | List

  /** One change made in the filter panel: the criterion and its new value. */
  datatype FilterUpdate =
    | SetCategory(category: string)
    | SetGenres(genres: seq<string>)
    | SetPopularity(popularity: Popularity)
    | SetMinRating(rating: nat)

  /** `{ ...filters, [key]: value }`: the criteria with one entry replaced. */
  function ApplyUpdate(f: Filter, u: FilterUpdate): (r: Filter)
    ensures u.SetCategory? ==> r == f.(category := u.category)
    ensures u.SetGenres? ==> r == f.(genre := u.genres)
    ensures u.SetPopularity? ==> r == f.(popularity := u.popularity)
    ensures u.SetMinRating? ==> r == f.(rating := u.rating)
  {
    match u
    case SetCategory(c) => f.(category := c)
    case SetGenres(gs) => f.(genre := gs)
    case SetPopularity(p) => f.(popularity := p)
    case SetMinRating(x) => f.(rating := x)
  }

  /** An update changes only its own criterion; the size criterion is never touched. */
  lemma ApplyUpdateLocal(f: Filter, u: FilterUpdate)
    ensures ApplyUpdate(f, u).size == f.size
    ensures !u.SetCategory? ==> ApplyUpdate(f, u).category == f.category
    ensures !u.SetGenres? ==> ApplyUpdate(f, u).genre == f.genre
    ensures !u.SetPopularity? ==> ApplyUpdate(f, u).popularity == f.popularity
    ensures !u.SetMinRating? ==> ApplyUpdate(f, u).rating == f.rating
  {
  }

  /** The genre list after a checkbox change: appended when checked, every copy removed when unchecked. */
  function ToggledGenres(current: seq<string>, genre: string, checked: bool): (r: seq<string>)
    ensures checked ==> r == current + [genre]
    ensures !checked ==> genre !in r && forall x :: x in r <==> x in current && x != genre
  {
    if checked then current + [genre] else Seqs.Filter(current, (x: string) => x != genre)
  }

  /** Checking a genre that was not selected and unchecking it again restores the list. */
  lemma ToggleRoundTrip(current: seq<string>, genre: string)
    requires genre !in current
    ensures ToggledGenres(ToggledGenres(current, genre, true), genre, false) == current
  {
    var p := (x: string) => x != genre;
    var withIt := current + [genre];
    assert withIt[..|current|] == current;
    FilterAppendDropped(current, genre, p);
    Seqs.FilterAll(current, p);
  }

  lemma {:induction false} FilterAppendDropped(s: seq<string>, genre: string, p: string -> bool)
    requires !p(genre)
    ensures Seqs.Filter(s + [genre], p) == Seqs.Filter(s, p)
  {
    if s == [] {
      assert s + [genre] == [genre];
      assert [genre][1..] == [];
    } else {
      assert (s + [genre])[0] == s[0];
      assert (s + [genre])[1..] == s[1..] + [genre];
      FilterAppendDropped(s[1..], genre, p);
    }
  }

  /** The page's own state; the criteria live in the shared application state. */
  class Page {
    const app: Catalog.AppState
    var currentPage: int
    var viewMode: ViewMode
    var sortBy: GameOrder.SortKey
    var showFilters: bool
    var isLoading: bool

    /** Every state the handlers reach is on a page numbered from 1. */
    predicate Valid()
      reads this
    {
      currentPage >= 1
    }

    constructor (app: Catalog.AppState)
      ensures this.app == app
      ensures currentPage == 1 && viewMode == Grid && sortBy == GameOrder.Newest
      ensures !showFilters && !isLoading
      ensures Valid()
    {
      this.app := app;
      currentPage := 1;
      viewMode := Grid;
      sortBy := GameOrder.Newest;
      showFilters := false;
      isLoading := false;
    }

    /** `sortedGames`: the visible list in the chosen order. */
    function SortedGames(): seq<Game>
      reads this, app
    {
      GameOrder.SortGames(sortBy, app.FilteredGames())
    }

    /** `totalPages`: sorting keeps the length, so this is the page count of the visible list. */
    function TotalPages(): (r: nat)
      reads this, app
      ensures r == Pagination.TotalPages(|app.FilteredGames()|)
    {
      Pagination.TotalPages(|SortedGames()|)
    }

    /**
     * `currentGames`: at most twelve games, each of them in the collection and
     * passing the search and all criteria.
     */
    function CurrentGames(): (r: seq<Game>)
      reads this, app
      ensures |r| <= Pagination.PageSize
      ensures forall g :: g in r ==> g in app.games && Catalog.Keep(app.searchTerm, app.filters, g)
    {
      var sorted := SortedGames();
      GameOrder.SortGamesOrdered(sortBy, app.FilteredGames());
      Pagination.PageItemsAtMostTwelve(sorted, currentPage);
      var r := Pagination.PageItems(sorted, currentPage);
      assert forall g :: g in r ==> g in sorted;
      assert forall g :: g in sorted ==> g in multiset(app.FilteredGames());
      r
    }

    /** On a page from 1 on, the shown games are the sorted list's run from the page's start position. */
    lemma CurrentGamesAreThePage()
      requires Valid()
      ensures var start := Pagination.PageStart(currentPage);
        |CurrentGames()| == (if start >= |SortedGames()| then 0
                             else if |SortedGames()| - start < Pagination.PageSize then |SortedGames()| - start
                             else Pagination.PageSize)
      ensures var start := Pagination.PageStart(currentPage);
        forall i :: 0 <= i < |CurrentGames()| ==>
          start + i < |SortedGames()| && CurrentGames()[i] == SortedGames()[start + i]
    {
      Pagination.PageItemsContents(SortedGames(), currentPage);
      assert CurrentGames() == Pagination.PageItems(SortedGames(), currentPage);
    }

    /** The numbers on the page buttons. */
    function PageButtons(): seq<int>
      reads this, app
    {
      Pagination.PageWindow(TotalPages(), currentPage)
    }

    /** The page bar is drawn exactly when the visible list does not fit on one page. */
    predicate PaginationVisible()
      reads this, app
      ensures PaginationVisible() <==> |app.FilteredGames()| > Pagination.PageSize
    {
      Pagination.ShowPaginationIff(|app.FilteredGames()|);
      Pagination.ShowPagination(TotalPages())
    }

    /** A change in the filter panel: new criteria, back to page 1, loading shown. */
    method HandleFilterChange(u: FilterUpdate)
      modifies app`filters, this`currentPage, this`isLoading
      ensures app.filters == ApplyUpdate(old(app.filters), u)
      ensures currentPage == 1 && isLoading && Valid()
    {
      app.SetFilters(ApplyUpdate(app.filters, u));
      currentPage := 1;
      isLoading := true;
    }

    /** The 500 ms timer started by a filter change runs out. */
    method LoadingDelayElapsed()
      modifies this`isLoading
      ensures !isLoading
    {
      isLoading := false;
    }

    /** A genre checkbox changes. */
    method ToggleGenre(genre: string, checked: bool)
      modifies app`filters, this`currentPage, this`isLoading
      ensures app.filters == old(app.filters).(genre := ToggledGenres(old(app.filters.genre), genre, checked))
      ensures currentPage == 1 && isLoading && Valid()
    {
      HandleFilterChange(SetGenres(ToggledGenres(app.filters.genre, genre, checked)));
    }

    /** "Limpiar": the initial criteria and page 1; the loading flag is left as it is. */
    method ClearFilters()
      modifies app`filters, this`currentPage
      ensures app.filters == DefaultFilter() && currentPage == 1 && Valid()
    {
      app.SetFilters(DefaultFilter());
      currentPage := 1;
    }

    method HandlePageChange(page: int)
      modifies this`currentPage
      ensures currentPage == page
    {
      currentPage := page;
    }

    /** "Anterior", drawn with the bar and enabled away from page 1. */
    method ClickPrev()
      requires Valid() && PaginationVisible() && Pagination.PrevEnabled(currentPage)
      modifies this`currentPage
      ensures currentPage == old(currentPage) - 1
      ensures Valid()
    {
      HandlePageChange(currentPage - 1);
    }

    /** "Siguiente", drawn with the bar and enabled away from the last page. */
    method ClickNext()
      requires Valid() && PaginationVisible() && Pagination.NextEnabled(TotalPages(), currentPage)
      modifies this`currentPage
      ensures currentPage == old(currentPage) + 1
      ensures Valid()
    {
      HandlePageChange(currentPage + 1);
    }

    /** The `i`-th numbered button. */
    method ClickPageButton(i: nat)
      requires PaginationVisible() && i < |PageButtons()|
      modifies this`currentPage
      ensures currentPage == old(PageButtons())[i]
      ensures 1 <= currentPage <= TotalPages() && Valid()
    {
      Pagination.PageWindowRange(TotalPages(), currentPage);
      HandlePageChange(PageButtons()[i]);
    }

    /** Changing the order keeps the page number. */
    method SetSortBy(key: GameOrder.SortKey)
      modifies this`sortBy
      ensures sortBy == key
    {
      sortBy := key;
    }

    method SetViewMode(mode: ViewMode)
      modifies this`viewMode
      ensures viewMode == mode
    {
      viewMode := mode;
    }

    /** The "Filtros" button on narrow screens. */
    method ToggleFilters()
      modifies this`showFilters
      ensures showFilters == !old(showFilters)
    {
      showFilters := !showFilters;
    }
  }
}
