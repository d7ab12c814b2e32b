/**
 * The detail window of the selected game: the screenshot carousel, the tabs,
 * the download button that asks for a login first, and closing.
 */
module GameModal {
  import opened Types
  import Catalog
  import GameCard
  import Text

  /** The four tabs; the window opens on the description. */
  datatype Tab = DescriptionTab | RequirementsTab | DownloadsTab | ReviewsTab

  /** What pressing a download button does: ask for a login, or start the download. */
  datatype DownloadOutcome = LoginRequested | DownloadStarted

  /**
   * The remainder `a % n` of the host language: the quotient is truncated
   * toward zero, so the remainder differs from `a` by a multiple of `n` and
   * takes the sign of `a`.
   */
  function JsRem(a: int, n: nat): (r: int)
    requires n > 0
    ensures a == JsQuot(a, n) * n + r
    ensures a >= 0 ==> 0 <= r < n && r == a % n
    ensures a < 0 ==> -(n as int) < r <= 0
  {
    if a >= 0 then a % n else -((-a) % n)
  }

  /** The quotient truncated toward zero that goes with JsRem. */
  function JsQuot(a: int, n: nat): int
    requires n > 0
  {
    if a >= 0 then a / n else -((-a) / n)
  }

  /** `(prev + 1) % length`. */
  function NextIndex(i: nat, n: nat): (r: nat)
    requires n > 0
    ensures r < n
    ensures i + 1 < n ==> r == i + 1
    ensures i + 1 == n ==> r == 0
  {
    JsRem(i + 1, n)
  }

  /** `(prev - 1 + length) % length`; the operand is never negative, since `prev` is not. */
  function PrevIndex(i: nat, n: nat): (r: nat)
    requires n > 0
    ensures r < n
    ensures 0 < i <= n ==> r == i - 1
    ensures i == 0 ==> r == n - 1
  {
    JsRem(i - 1 + n, n)
  }

  /** On an index that is shown, "previous" undoes "next" and "next" undoes "previous". */
  lemma PrevUndoesNext(i: nat, n: nat)
    requires i < n
    ensures PrevIndex(NextIndex(i, n), n) == i
    ensures NextIndex(PrevIndex(i, n), n) == i
  {
  }

  /** `k` presses of "next". */
  function NextTimes(i: nat, n: nat, k: nat): (r: nat)
    requires n > 0
  {
    if k == 0 then i else NextIndex(NextTimes(i, n, k - 1), n)
  }

  /** Short of the last screenshot, `k` presses of "next" move `k` places. */
  lemma {:induction false} NextTimesMoves(i: nat, n: nat, k: nat)
    requires i + k < n
    ensures NextTimes(i, n, k) == i + k
  {
    if k > 0 {
      NextTimesMoves(i, n, k - 1);
    }
  }

  /** Pressing `a` times and then `b` times is pressing `a + b` times. */
  lemma {:induction false} NextTimesCompose(i: nat, n: nat, a: nat, b: nat)
    requires n > 0
    ensures NextTimes(i, n, a + b) == NextTimes(NextTimes(i, n, a), n, b)
  {
    if b > 0 {
      NextTimesCompose(i, n, a, b - 1);
    }
  }

  /** `length` presses of "next" bring the carousel back to where it was. */
  lemma FullCircle(i: nat, n: nat)
    requires i < n
    ensures NextTimes(i, n, n) == i
  {
    NextTimesMoves(i, n, n - 1 - i);
    NextTimesCompose(i, n, n - 1 - i, 1);
    assert NextTimes(i, n, n - i) == 0;
    NextTimesMoves(0, n, i);
    NextTimesCompose(i, n, n - i, i);
  }

  /** The big download button: free games say so, paid ones show the price badge's text. */
  function BuyLabel(price: nat): (r: string)
    ensures price == 0 ==> r == "Descargar Gratis"
    ensures price > 0 ==> r == "Comprar por " + GameCard.PriceLabel(price)
  {
    if price == 0 then "Descargar Gratis" else "Comprar por " + GameCard.PriceLabel(price)
  }

  /**
   * A free game's button, and only a free game's, says "Descargar Gratis"; a
   * paid game's reads "Comprar por $" followed by digits that read back as the price.
   */
  lemma BuyLabelRoundTrip(price: nat)
    ensures BuyLabel(price) == "Descargar Gratis" <==> price == 0
    ensures price > 0 ==> var r := BuyLabel(price);
      |r| > 13 && r[..13] == "Comprar por $"
      && (forall i :: 13 <= i < |r| ==> Text.IsDigit(r[i])) && Text.DecimalValue(r[13..]) == price
  {
    if price > 0 {
      var r := BuyLabel(price);
      var badge := GameCard.PriceLabel(price);
      GameCard.PriceLabelRoundTrip(price);
      assert r == "Comprar por " + badge;
      assert r[0] != "Descargar Gratis"[0];
      assert r[13..] == badge[1..];
    }
  }

  /** The window's own state; the selected game and the window flags live in the shared state. */
  class Window {
    const app: Catalog.AppState
    var activeTab: Tab
    var currentScreenshot: nat

    constructor (app: Catalog.AppState)
      ensures this.app == app && activeTab == DescriptionTab && currentScreenshot == 0
    {
      this.app := app;
      activeTab := DescriptionTab;
      currentScreenshot := 0;
    }

    /** Nothing is drawn without a selected game, and nothing but the shell while the flag is off. */
    predicate Visible()
      reads app
    {
      app.selectedGame.Some? && app.showGameModal
    }

    function Screenshots(): seq<string>
      reads app
      requires app.selectedGame.Some?
    {
      app.selectedGame.value.screenshots
    }

    /** The right arrow, drawn only when there is more than one screenshot. */
    method NextScreenshot()
      requires Visible() && |Screenshots()| > 1
      modifies this`currentScreenshot
      ensures currentScreenshot == NextIndex(old(currentScreenshot), |Screenshots()|)
      ensures currentScreenshot < |Screenshots()|
    {
      currentScreenshot := NextIndex(currentScreenshot, |Screenshots()|);
    }

    /** The left arrow, drawn only when there is more than one screenshot. */
    method PrevScreenshot()
      requires Visible() && |Screenshots()| > 1
      modifies this`currentScreenshot
      ensures currentScreenshot == PrevIndex(old(currentScreenshot), |Screenshots()|)
      ensures currentScreenshot < |Screenshots()|
    {
      currentScreenshot := PrevIndex(currentScreenshot, |Screenshots()|);
    }

    /** One of the dots below the picture, one per screenshot. */
    method SelectScreenshot(index: nat)
      requires Visible() && index < |Screenshots()|
      modifies this`currentScreenshot
      ensures currentScreenshot == index
    {
      currentScreenshot := index;
    }

    method SetActiveTab(tab: Tab)
      modifies this`activeTab
      ensures activeTab == tab
    {
      activeTab := tab;
    }

    /**
     * `handleDownload`: with nobody logged in the login window is asked for and
     * nothing else happens; otherwise the download starts (the alert) and no
     * state changes.
     */
    method HandleDownload() returns (outcome: DownloadOutcome)
      requires Visible()
      modifies app`showLoginModal
      ensures app.user.None? ==> outcome == LoginRequested && app.showLoginModal
      ensures app.user.Some? ==> outcome == DownloadStarted && app.showLoginModal == old(app.showLoginModal)
    {
      if app.user.None? {
        app.SetShowLoginModal(true);
        return LoginRequested;
      }
      outcome := DownloadStarted;
    }

    /** The login button of the reviews tab, shown to visitors: this window closes and the login window opens. */
    method ReviewsLogin()
      requires Visible() && activeTab == ReviewsTab && app.user.None?
      modifies app`showGameModal, app`showLoginModal
      ensures !app.showGameModal && app.showLoginModal
    {
      app.SetShowGameModal(false);
      app.SetShowLoginModal(true);
    }

    /** The close button or a click on the backdrop: the window closes, the game stays selected. */
    method Close()
      requires Visible()
      modifies app`showGameModal
      ensures !app.showGameModal
    {
      app.SetShowGameModal(false);
    }
  }

  /**
   * The carousel index is not reset when another game is selected, so it may
   * be past the new game's screenshots; either arrow brings it back among them.
   */
  lemma StaleIndexRecovers(i: nat, n: nat)
    requires n > 1 && i >= n
    ensures NextIndex(i, n) < n && PrevIndex(i, n) < n
  {
  }
}
