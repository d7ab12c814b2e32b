/** The records of the catalog: games, filter criteria, the logged-in user and the contact form. */
module Types {

  datatype Option<T> = None | Some(value: T)

  /** Record a message under `key` when there is one: the `newErrors.key = ...` of the validation blocks. */
  function Put<K, V>(m: map<K, V>, key: K, msg: Option<V>): map<K, V> {
    if msg.Some? then m[key := msg.value] else m
  }

  /** One column of a game's system requirements (display only). */
  datatype SystemSpec = SystemSpec(os: string, processor: string, memory: string, graphics: string, storage: string)

  datatype Requirements = Requirements(minimum: SystemSpec, recommended: SystemSpec)

  /**
   * A catalog entry. `rating` is in tenths of a star (ratings carry one decimal,
   * 0.0 .. 5.0), `releaseDate` is an ISO `YYYY-MM-DD` string, `price` is whole
   * dollars. `isNew` is the record's `new` flag (`new` is a Dafny keyword).
   */
  datatype Game = Game(
    id: string,
    title: string,
    description: string,
    thumbnail: string,
    screenshots: seq<string>,
    category: string,
    genre: seq<string>,
    rating: nat,
    downloads: nat,
    size: string,
    releaseDate: string,
    requirements: Requirements,
    price: nat,
    featured: bool,
    popular: bool,
    isNew: bool)

  datatype User = User(id: string, username: string, email: string, avatar: Option<string>, isLoggedIn: bool)

  datatype Popularity = AllPopularity | PopularOnly | NewOnly

  datatype SizeFilter = AllSizes | Small | Medium | Large

  /** The filter criteria; `rating` is the minimum rating in tenths. */
  datatype Filter = Filter(category: string, genre: seq<string>, popularity: Popularity, size: SizeFilter, rating: nat)

  /** The category value that disables the category check. */
  const AllCategories := "all"

  /** The filter state the provider starts with and that "clear filters" restores. */
  function DefaultFilter(): Filter {
    Filter(AllCategories, [], AllPopularity, AllSizes, 0)
  }

  datatype ContactForm = ContactForm(name: string, email: string, subject: string, message: string)

  const EmptyContactForm := ContactForm("", "", "", "")
}
