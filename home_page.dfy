/**
 * The home page's three derived lists: the featured game of the hero banner,
 * the first six new games, and the five most downloaded games.
 */
module HomePage {
  import opened Types
  import Catalog
  import GameOrder
  import StableSort
  import Seqs

  /** The position of the first featured game, or `|games|` when there is none. */
  function FirstFeatured(games: seq<Game>): (k: nat)
    ensures k <= |games|
    ensures forall j :: 0 <= j < k ==> !games[j].featured
    ensures k < |games| ==> games[k].featured
  {
    if games == [] || games[0].featured then 0 else 1 + FirstFeatured(games[1..])
  }

  /**
   * `games.find(g => g.featured) || games[0]`: the first featured game, or
   * else the first game; `None` for an empty catalog, where both are undefined.
   */
  function FeaturedGame(games: seq<Game>): (r: Option<Game>)
    ensures r.None? <==> games == []
    ensures r.Some? ==> r.value in games
    ensures r.Some? && (exists i :: 0 <= i < |games| && games[i].featured) ==> r.value.featured
  {
    var k := FirstFeatured(games);
    if k < |games| then Some(games[k])
    else if games == [] then None
    else Some(games[0])
  }

  /** With a featured game in the catalog, the banner shows the first of them. */
  lemma FeaturedIsFirstFeatured(games: seq<Game>, i: nat)
    requires i < |games| && games[i].featured
    requires forall j :: 0 <= j < i ==> !games[j].featured
    ensures FeaturedGame(games) == Some(games[i])
  {
  }

  /** With no featured game, the banner shows the first game. */
  lemma FeaturedFallsBack(games: seq<Game>)
    requires games != []
    requires forall i :: 0 <= i < |games| ==> !games[i].featured
    ensures FeaturedGame(games) == Some(games[0])
  {
  }

  predicate IsNewGame(g: Game) { g.isNew }

  const NewGamesShown: nat := 6
  const TopGamesShown: nat := 5

  /** `games.filter(g => g.new).slice(0, 6)`. */
  function NewGames(games: seq<Game>): seq<Game> {
    Seqs.Take(Seqs.Filter(games, IsNewGame), NewGamesShown)
  }

  /**
   * The first six new games of the catalog (all of them when there are fewer),
   * in catalog order.
   */
  lemma NewGamesProperties(games: seq<Game>)
    ensures NewGames(games) == Seqs.Filter(games, IsNewGame)[..|NewGames(games)|]
    ensures |NewGames(games)| == if |Seqs.Filter(games, IsNewGame)| < NewGamesShown
                                 then |Seqs.Filter(games, IsNewGame)| else NewGamesShown
    ensures |NewGames(games)| <= NewGamesShown
    ensures forall g :: g in NewGames(games) ==> g in games && g.isNew
    ensures Seqs.SubseqOf(NewGames(games), games)
    ensures |NewGames(games)| < NewGamesShown ==>
              forall g :: g in games && g.isNew ==> g in NewGames(games)
  {
    var all := Seqs.Filter(games, IsNewGame);
    var r := NewGames(games);
    Seqs.FilterSubseq(games, IsNewGame);
    Seqs.SubseqPrefix(all, games, |r|);
    assert all[..|r|] == r;
    assert forall g :: g in r ==> g in all;
  }

  /** `[...games].sort((a, b) => b.downloads - a.downloads).slice(0, 5)`. */
  function TopGames(games: seq<Game>): seq<Game> {
    Seqs.Take(GameOrder.SortGames(GameOrder.Popular, games), TopGamesShown)
  }

  /** The sorted copy, with what the stable sort guarantees about it. */
  lemma SortedByDownloads(games: seq<Game>)
    ensures var s := GameOrder.SortGames(GameOrder.Popular, games);
      |s| == |games| && multiset(s) == multiset(games)
      && StableSort.Sorted(GameOrder.Comparator(GameOrder.Popular), s)
  {
    GameOrder.ComparatorConsistent(GameOrder.Popular);
    StableSort.SortBySorted(GameOrder.Comparator(GameOrder.Popular), games);
  }

  /**
   * `min(5, |games|)` games drawn from the catalog, most downloaded first
   * (the catalog itself is a value and is left as it is).
   */
  lemma TopGamesOrdered(games: seq<Game>)
    ensures |TopGames(games)| == if |games| < TopGamesShown then |games| else TopGamesShown
    ensures multiset(TopGames(games)) <= multiset(games)
    ensures forall i, j :: 0 <= i < j < |TopGames(games)| ==>
              TopGames(games)[i].downloads >= TopGames(games)[j].downloads
  {
    var s := GameOrder.SortGames(GameOrder.Popular, games);
    var r := TopGames(games);
    SortedByDownloads(games);
    assert s == r + s[|r|..];
    forall i, j | 0 <= i < j < |r|
      ensures r[i].downloads >= r[j].downloads
    {
      assert GameOrder.Comparator(GameOrder.Popular)(s[i], s[j]) <= 0;
    }
  }

  /**
   * Ties keep catalog order: the top games with as many downloads as `g`
   * (under the comparator) are the first of those games in the catalog.
   */
  lemma TopGamesStable(games: seq<Game>, g: Game)
    ensures var cmp := GameOrder.Comparator(GameOrder.Popular);
      var t, u := StableSort.TiedWith(cmp, g, TopGames(games)), StableSort.TiedWith(cmp, g, games);
      |t| <= |u| && t == u[..|t|]
  {
    var cmp := GameOrder.Comparator(GameOrder.Popular);
    var s := GameOrder.SortGames(GameOrder.Popular, games);
    var r := TopGames(games);
    SortedByDownloads(games);
    assert s == r + s[|r|..];
    StableSort.TiedWithConcat(cmp, g, r, s[|r|..]);
    GameOrder.SortGamesStable(GameOrder.Popular, games, g);
  }

  /** Every top game has at least as many downloads as every game left out of the top. */
  lemma TopGamesDominate(games: seq<Game>, x: Game, y: Game)
    requires x in TopGames(games)
    requires y in multiset(games) - multiset(TopGames(games))
    ensures x.downloads >= y.downloads
  {
    var cmp := GameOrder.Comparator(GameOrder.Popular);
    var s := GameOrder.SortGames(GameOrder.Popular, games);
    var r := TopGames(games);
    GameOrder.ComparatorConsistent(GameOrder.Popular);
    assert r == StableSort.SortBy(cmp, games)[..|r|];
    StableSort.SortedPrefixDominates(cmp, games, |r|, x, y);
    assert cmp(x, y) <= 0;
  }

  /** The home page, which only reads the catalog and opens games. */
  class Home {
    const app: Catalog.AppState

    constructor (app: Catalog.AppState)
      ensures this.app == app
    {
      this.app := app;
    }

    /** `handleViewGame`: the game becomes the selected one and its window opens. */
    method HandleViewGame(game: Game)
      modifies app`selectedGame, app`showGameModal
      ensures app.selectedGame == Some(game) && app.showGameModal
    {
      app.SetSelectedGame(Some(game));
      app.SetShowGameModal(true);
    }
  }
}
