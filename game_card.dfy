/**
 * A game's card: the downloads counter with its `K` / `M` tier, the price
 * badge, and the button that opens the game's detail window.
 */
module GameCard {
  import opened Types
  import Text
  import Catalog

  /**
   * What `formatDownloads` shows. A scaled label is `amount / unit` written
   * with one decimal (the digits `toFixed(1)` picks are not modelled) and
   * followed by `suffix`; a plain label is the counter's own decimal text.
   */
  datatype DownloadLabel =
    | Scaled(amount: nat, unit: nat, suffix: char)
    | Plain(text: string)

  const Million: nat := 1000000
  const Thousand: nat := 1000

  /** `formatDownloads`: millions from 1,000,000 on, thousands from 1000 on, the bare number below. */
  function FormatDownloads(d: nat): (r: DownloadLabel)
    ensures r.Scaled? <==> d >= Thousand
    ensures r.Scaled? ==> r.amount == d
    ensures r.Scaled? && r.suffix == 'M' <==> d >= Million
    ensures r.Scaled? ==> (r.suffix == 'M' && r.unit == Million) || (r.suffix == 'K' && r.unit == Thousand)
    ensures r.Plain? ==> r.text == Text.DecimalString(d)
  {
    if d >= Million then Scaled(d, Million, 'M')
    else if d >= Thousand then Scaled(d, Thousand, 'K')
    else Plain(Text.DecimalString(d))
  }

  /** The tier as a number: 0 plain, 1 thousands, 2 millions. */
  function Tier(l: DownloadLabel): nat {
    match l
    case Plain(_) => 0
    case Scaled(_, _, suffix) => if suffix == 'M' then 2 else 1
  }

  /** More downloads never give a lower tier. */
  lemma TierMonotonic(d1: nat, d2: nat)
    requires d1 <= d2
    ensures Tier(FormatDownloads(d1)) <= Tier(FormatDownloads(d2))
  {
  }

  /**
   * The exact quotient behind a scaled label is at least one unit, and below a
   * thousand units for a thousands label. The printed label, rounded to one
   * decimal, can still read "1000.0K" for counters from 999,950 to 999,999.
   */
  lemma ScaledAmountRange(d: nat)
    ensures var r := FormatDownloads(d);
      r.Scaled? ==> r.unit <= r.amount && (r.suffix == 'K' ==> r.amount < 1000 * r.unit)
  {
  }

  /** A plain label is at most three digits and reads back as the counter. */
  lemma PlainRoundTrip(d: nat)
    requires d < Thousand
    ensures var r := FormatDownloads(d);
      r.Plain? && |r.text| <= 3 && Text.DecimalValue(r.text) == d
  {
    Text.DecimalStringShort(d);
  }

  /** Counters in the range the catalog data is generated in always show in thousands. */
  lemma CatalogRangeShowsThousands(d: nat)
    requires Thousand <= d <= 999999
    ensures FormatDownloads(d).Scaled? && FormatDownloads(d).suffix == 'K'
  {
  }

  /** The price badge: "Gratis" for a free game, otherwise `$` and the price. */
  function PriceLabel(price: nat): (r: string)
    ensures r == "Gratis" <==> price == 0
    ensures price > 0 ==> |r| >= 2 && r[0] == '$'
  {
    if price == 0 then "Gratis"
    else
      var r := "$" + Text.DecimalString(price);
      assert r[0] != "Gratis"[0];
      r
  }

  /** A paid game's badge reads back, after the `$`, as its price, written without leading zeros. */
  lemma PriceLabelRoundTrip(price: nat)
    requires price > 0
    ensures var r := PriceLabel(price);
      (forall i :: 1 <= i < |r| ==> Text.IsDigit(r[i])) && Text.DecimalValue(r[1..]) == price
      && (|r| > 2 ==> r[1] != '0')
  {
    var r := PriceLabel(price);
    assert r[1..] == Text.DecimalString(price);
  }

  /** One card, showing `game`. */
  class Card {
    const app: Catalog.AppState
    const game: Game

    constructor (app: Catalog.AppState, game: Game)
      ensures this.app == app && this.game == game
    {
      this.app := app;
      this.game := game;
    }

    /** "Ver detalles": this card's game becomes the selected one and its window opens. */
    method HandleViewDetails()
      modifies app`selectedGame, app`showGameModal
      ensures app.selectedGame == Some(game) && app.showGameModal
    {
      app.SetSelectedGame(Some(game));
      app.SetShowGameModal(true);
    }
  }
}
