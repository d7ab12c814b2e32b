/**
 * The application context: the in-memory game collection, the search term and
 * filter criteria with the derived list of visible games, and the shared UI
 * state (logged-in user, selected game, the three overlay flags) that the
 * components overwrite through setters.
 */
module Catalog {
  import opened Types
  import Text
  import Seqs

  /** Case-insensitive substring search on the title or the description. */
  predicate MatchesSearch(term: string, g: Game) {
    var t := Text.ToLower(term);
    Text.Includes(Text.ToLower(g.title), t) || Text.Includes(Text.ToLower(g.description), t)
  }

  predicate MatchesCategory(f: Filter, g: Game) {
    f.category == AllCategories || g.category == f.category
  }

  /** No genre selected, or at least one selected genre is among the game's genres. */
  predicate MatchesGenre(f: Filter, g: Game) {
    |f.genre| == 0 || exists x :: x in f.genre && x in g.genre
  }

  predicate MatchesPopularity(f: Filter, g: Game) {
    match f.popularity
    case AllPopularity => true
    case PopularOnly => g.popular
    case NewOnly => g.isNew
  }

  predicate MatchesRating(f: Filter, g: Game) {
    g.rating >= f.rating
  }

  /** The test `filteredGames` applies to each game: all five checks. */
  predicate Keep(term: string, f: Filter, g: Game) {
    MatchesSearch(term, g) && MatchesCategory(f, g) && MatchesGenre(f, g)
    && MatchesPopularity(f, g) && MatchesRating(f, g)
  }

  /** The callback `filteredGames` passes to `filter`. */
  function Keeper(term: string, f: Filter): Game -> bool {
    g => Keep(term, f, g)
  }

  /** `filteredGames`: `games.filter(...)` with the five-way conjunction. */
  function FilterGames(games: seq<Game>, term: string, f: Filter): seq<Game> {
    Seqs.Filter(games, Keeper(term, f))
  }

  /** The visible list keeps the collection's order and only drops games. */
  lemma FilteredIsSubsequence(games: seq<Game>, term: string, f: Filter)
    ensures Seqs.SubseqOf(FilterGames(games, term, f), games)
  {
    Seqs.FilterSubseq(games, Keeper(term, f));
  }

  /** A game is visible exactly when it is in the collection and passes all five checks. */
  lemma FilteredMembership(games: seq<Game>, term: string, f: Filter, g: Game)
    ensures g in FilterGames(games, term, f) <==>
              g in games && MatchesSearch(term, g) && MatchesCategory(f, g)
              && MatchesGenre(f, g) && MatchesPopularity(f, g) && MatchesRating(f, g)
  {
  }

  /** A passing game is shown as many times as the collection holds it, a failing one never. */
  lemma FilteredCount(games: seq<Game>, term: string, f: Filter, g: Game)
    ensures multiset(FilterGames(games, term, f))[g] == if Keep(term, f, g) then multiset(games)[g] else 0
  {
    Seqs.FilterCount(games, Keeper(term, f), g);
  }

  /**
   * The checks are independent of evaluation order: applying them one at a time,
   * last check first, gives the same list as the single combined filter.
   */
  lemma FilterOrderIrrelevant(games: seq<Game>, term: string, f: Filter)
    ensures FilterGames(games, term, f)
         == Seqs.Filter(Seqs.Filter(Seqs.Filter(Seqs.Filter(Seqs.Filter(games,
              g => MatchesRating(f, g)),
              g => MatchesPopularity(f, g)),
              g => MatchesGenre(f, g)),
              g => MatchesCategory(f, g)),
              g => MatchesSearch(term, g))
  {
    var r: Game -> bool := g => MatchesRating(f, g);
    var p: Game -> bool := g => MatchesPopularity(f, g);
    var n: Game -> bool := g => MatchesGenre(f, g);
    var c: Game -> bool := g => MatchesCategory(f, g);
    var s: Game -> bool := g => MatchesSearch(term, g);
    var rp: Game -> bool := g => r(g) && p(g);
    var rpn: Game -> bool := g => rp(g) && n(g);
    var rpnc: Game -> bool := g => rpn(g) && c(g);
    var all: Game -> bool := g => rpnc(g) && s(g);
    Seqs.FilterFuse(games, r, p, rp);
    Seqs.FilterFuse(games, rp, n, rpn);
    Seqs.FilterFuse(games, rpn, c, rpnc);
    Seqs.FilterFuse(games, rpnc, s, all);
    Seqs.FilterExt(games, all, Keeper(term, f));
  }

  /** An empty search term matches every game. */
  lemma EmptySearchMatchesAll(g: Game)
    ensures MatchesSearch("", g)
  {
    assert Text.ToLower("") == "";
    Text.IncludesEmpty(Text.ToLower(g.title));
  }

  /** The search is insensitive to the case of the term's ASCII letters. */
  lemma SearchIgnoresTermCase(term: string, g: Game)
    ensures MatchesSearch(Text.ToLower(term), g) == MatchesSearch(term, g)
  {
    Text.ToLowerIdempotent(term);
  }

  /** With the initial criteria and an empty search every game is visible. */
  lemma DefaultFilterKeepsAll(games: seq<Game>)
    ensures FilterGames(games, "", DefaultFilter()) == games
  {
    forall g | g in games
      ensures Keep("", DefaultFilter(), g)
    {
      EmptySearchMatchesAll(g);
    }
    Seqs.FilterAll(games, Keeper("", DefaultFilter()));
  }

  /** Only a category selected: exactly the games of that category are visible. */
  lemma CategoryOnly(games: seq<Game>, category: string)
    requires category != AllCategories
    ensures FilterGames(games, "", DefaultFilter().(category := category))
         == Seqs.Filter(games, (g: Game) => g.category == category)
  {
    var f := DefaultFilter().(category := category);
    forall g | g in games
      ensures Keep("", f, g) == (g.category == category)
    {
      EmptySearchMatchesAll(g);
    }
    Seqs.FilterExt(games, Keeper("", f), (g: Game) => g.category == category);
  }

  /**
   * The rating threshold is inclusive: every visible game reaches it, and a
   * game exactly at the threshold that passes the other four checks is visible.
   */
  lemma RatingThresholdInclusive(games: seq<Game>, term: string, f: Filter, g: Game)
    ensures forall v :: v in FilterGames(games, term, f) ==> v.rating >= f.rating
    ensures g in games && g.rating == f.rating && MatchesSearch(term, g) && MatchesCategory(f, g)
            && MatchesGenre(f, g) && MatchesPopularity(f, g)
            ==> g in FilterGames(games, term, f)
  {
  }

  /** The `size` criterion is never consulted. */
  lemma SizeIgnored(games: seq<Game>, term: string, f: Filter, size: SizeFilter)
    ensures FilterGames(games, term, f.(size := size)) == FilterGames(games, term, f)
  {
    Seqs.FilterExt(games, Keeper(term, f.(size := size)), Keeper(term, f));
  }

  /** Filtering the visible list again with the same term and criteria changes nothing. */
  lemma FilterGamesIdempotent(games: seq<Game>, term: string, f: Filter)
    ensures FilterGames(FilterGames(games, term, f), term, f) == FilterGames(games, term, f)
  {
    Seqs.FilterIdempotent(games, Keeper(term, f));
  }

  /** The provider's state. `games` never changes after construction. */
  class AppState {
    const games: seq<Game>
    var searchTerm: string
    var filters: Filter
    var user: Option<User>
    var selectedGame: Option<Game>
    var showGameModal: bool
    var showLoginModal: bool
    var showRegisterModal: bool

    constructor (data: seq<Game>)
      ensures games == data && searchTerm == "" && filters == DefaultFilter()
      ensures user == None && selectedGame == None
      ensures !showGameModal && !showLoginModal && !showRegisterModal
    {
      games := data;
      searchTerm := "";
      filters := DefaultFilter();
      user := None;
      selectedGame := None;
      showGameModal := false;
      showLoginModal := false;
      showRegisterModal := false;
    }

    /** The derived visible list, recomputed from the current term and criteria. */
    function FilteredGames(): (r: seq<Game>)
      reads this
      ensures forall g :: g in r <==> g in games && Keep(searchTerm, filters, g)
    {
      FilterGames(games, searchTerm, filters)
    }

    method SetSearchTerm(term: string)
      modifies this`searchTerm
      ensures searchTerm == term
    {
      searchTerm := term;
    }

    method SetFilters(f: Filter)
      modifies this`filters
      ensures filters == f
    {
      filters := f;
    }

    method SetUser(u: Option<User>)
      modifies this`user
      ensures user == u
    {
      user := u;
    }

    method SetSelectedGame(g: Option<Game>)
      modifies this`selectedGame
      ensures selectedGame == g
    {
      selectedGame := g;
    }

    method SetShowGameModal(show: bool)
      modifies this`showGameModal
      ensures showGameModal == show
    {
      showGameModal := show;
    }

    method SetShowLoginModal(show: bool)
      modifies this`showLoginModal
      ensures showLoginModal == show
    {
      showLoginModal := show;
    }

    method SetShowRegisterModal(show: bool)
      modifies this`showRegisterModal
      ensures showRegisterModal == show
    {
      showRegisterModal := show;
    }
  }
}
