/**
 * The four orders of the games page: newest first, most downloaded first,
 * best rated first and by title. Each is a comparator of the shape
 * `Array.prototype.sort` expects, and the page sorts with the stable sort.
 */
module GameOrder {
  import opened Types
  import Text
  import StableSort

  datatype SortKey = Newest | Popular | Rating | Name

  /**
   * The comparator for each key. Release dates are ISO `YYYY-MM-DD` strings,
   * whose code-point order is their calendar order, so comparing the strings
   * gives the sign of the difference of the two timestamps.
   */
  function Compare(key: SortKey, a: Game, b: Game): int {
    match key
    case Newest => Text.CompareStrings(b.releaseDate, a.releaseDate)
    case Popular => b.downloads - a.downloads
    case Rating => b.rating - a.rating
    case Name => Text.CompareStrings(a.title, b.title)
  }

  /** The callback handed to `sort`. */
  function Comparator(key: SortKey): (Game, Game) -> int {
    (a, b) => Compare(key, a, b)
  }

  lemma CompareFlip(key: SortKey, a: Game, b: Game)
    ensures Compare(key, a, b) < 0 <==> Compare(key, b, a) > 0
  {
    Text.CompareStringsFlip(a.releaseDate, b.releaseDate);
    Text.CompareStringsFlip(a.title, b.title);
  }

  lemma CompareTransitive(key: SortKey, a: Game, b: Game, c: Game)
    requires Compare(key, a, b) <= 0 && Compare(key, b, c) <= 0
    ensures Compare(key, a, c) <= 0
  {
    match key
    case Newest => Text.CompareStringsTransitive(c.releaseDate, b.releaseDate, a.releaseDate);
    case Name => Text.CompareStringsTransitive(a.title, b.title, c.title);
    case _ =>
  }

  /** Every key gives a comparator consistent enough for the stable sort to be well defined. */
  lemma ComparatorConsistent(key: SortKey)
    ensures StableSort.Consistent(Comparator(key))
  {
    var cmp := Comparator(key);
    forall a, b
      ensures cmp(a, b) < 0 <==> cmp(b, a) > 0
    {
      CompareFlip(key, a, b);
    }
    forall a, b, c | StableSort.Le(cmp, a, b) && StableSort.Le(cmp, b, c)
      ensures StableSort.Le(cmp, a, c)
    {
      CompareTransitive(key, a, b, c);
    }
  }

  /** `sortedGames`: a copy of the list sorted stably by the chosen key. */
  function SortGames(key: SortKey, games: seq<Game>): seq<Game> {
    ComparatorConsistent(key);
    StableSort.SortBy(Comparator(key), games)
  }

  /** What "sorted" means for each key, between any earlier and any later game. */
  ghost predicate InOrder(key: SortKey, a: Game, b: Game) {
    match key
    case Newest => Text.CompareStrings(a.releaseDate, b.releaseDate) >= 0
    case Popular => a.downloads >= b.downloads
    case Rating => a.rating >= b.rating
    case Name => Text.CompareStrings(a.title, b.title) <= 0
  }

  /**
   * The sorted list is a permutation of the input in which every earlier game
   * comes at or before every later one in the chosen order: newer or equal
   * release date, at least as many downloads, at least the rating, or a title
   * not after.
   */
  lemma SortGamesOrdered(key: SortKey, games: seq<Game>)
    ensures multiset(SortGames(key, games)) == multiset(games)
    ensures forall i, j :: 0 <= i < j < |games| ==>
              InOrder(key, SortGames(key, games)[i], SortGames(key, games)[j])
  {
    ComparatorConsistent(key);
    StableSort.SortBySorted(Comparator(key), games);
    var r := SortGames(key, games);
    forall i, j | 0 <= i < j < |games|
      ensures InOrder(key, r[i], r[j])
    {
      assert Comparator(key)(r[i], r[j]) <= 0;
      Text.CompareStringsFlip(r[i].releaseDate, r[j].releaseDate);
    }
  }

  /**
   * Sorting is stable: games the comparator calls equal (same release date,
   * same downloads, same rating or same title) keep their input order.
   */
  lemma SortGamesStable(key: SortKey, games: seq<Game>, g: Game)
    ensures StableSort.TiedWith(Comparator(key), g, SortGames(key, games))
         == StableSort.TiedWith(Comparator(key), g, games)
  {
    ComparatorConsistent(key);
    StableSort.SortStable(Comparator(key), games, g);
  }

  /** The sorted list is the only arrangement that is ordered and stable, so any stable sort gives it. */
  lemma SortGamesUnique(key: SortKey, games: seq<Game>, t: seq<Game>)
    requires StableSort.Sorted(Comparator(key), t)
    requires forall g :: StableSort.TiedWith(Comparator(key), g, t) == StableSort.TiedWith(Comparator(key), g, games)
    ensures t == SortGames(key, games)
  {
    ComparatorConsistent(key);
    StableSort.SortUnique(Comparator(key), games, t);
  }
}
