# GamesFullZ catalog logic in Dafny

This project models the logic of the GamesFullZ front end, a React game
catalog. Rendering, animation and styling are not modelled. What is modelled:

- **Application context.** The in-memory game collection. The search term
  and the five filter checks that give the list of visible games. The shared
  state: the logged-in user, the selected game and the three window flags.
  Other components overwrite this state through setters.
- **Games page.**
  - The copy of the visible list, sorted stably by one of four keys.
  - Pages of twelve games, cut out with the host language's `slice` rules.
  - The window of at most seven page buttons.
  - The filter-panel, sort and page handlers.
- **Login and registration windows.**
  - The e-mail pattern `^[^\s@]+@[^\s@]+\.[^\s@]+$`.
  - The error record that each submit builds, one field at a time.
  - What a successful or failed submit does to the user, the window flags
    and the forms.
  - Switching between the two windows.
- **Contact page.**
  - Validation on trimmed values, except the e-mail pattern, which is tried
    on the untrimmed text.
  - The submit sequence "sending", then "sent", then "reset", with each
    timer step as a separate method.
  - Editing one field.
- **Game window.**
  - The screenshot carousel, using the host language's `%`, which keeps the
    sign of its left operand.
  - The tabs.
  - The download button, which asks for a login when nobody is logged in.
  - The reviews-tab login button, and closing the window.
- **Home page.** The featured game, the first six new games, and the five
  most downloaded games.
- **Game card.** The `K`/`M` tier of the download counter, the price badge,
  and opening the game's window.

How the code is split:

- Pure code is written as functions, and lemmas are proved about them.
- State that the components update is written as classes:
  - `Catalog.AppState`, `GamesPage.Page`, `Auth.AuthModals`,
    `Contact.ContactPage`, `GameModal.Window`, `HomePage.Home` and
    `GameCard.Card`.
  - Each method's `modifies` clause names exactly the fields that the
    handler writes.
- Every component that shares state holds the same `Catalog.AppState`
  object, as every component in the source reads the same context.

Representation choices:

- Ratings are natural numbers in tenths of a star.
- Release dates are ISO `YYYY-MM-DD` strings. Their code-point order is
  their calendar order.
- Prices are whole numbers, as in the generated catalog (0 to 60).
- `toLowerCase` is modelled on ASCII letters only.
- `trim` and `\s` use the exact ECMAScript WhiteSpace and LineTerminator
  code points.
- `localeCompare` is replaced by a code-point lexicographic comparison.

`Array.prototype.sort` is required to be stable by section 23.1.3.30 of
ECMA-262 (ECMAScript 2023). It is modelled by `StableSort.SortBy`, an
insertion sort against an abstract comparator. The sort is proved to be:

- a permutation of its input;
- sorted;
- stable (the games that tie with any game keep their relative order);
- the only arrangement that is both sorted and stable. So the model agrees
  with any stable sort the host uses.

The model follows the code as written, including these behaviours:

- `totalPages` is 0 for an empty list, not 1.
- The requested page is never clamped. A page past the end shows nothing,
  and "Siguiente" stays enabled there (`Pagination.StalePageDrifts`).
- Changing the sort key or the search term keeps the current page.
- The contact e-mail is matched against the pattern untrimmed. So surrounding white space makes
  it invalid rather than being ignored (`Contact.PaddedEmailRejected`).
- The carousel index is not reset when another game is selected. The arrows
  bring a stale index back into range (`GameModal.StaleIndexRecovers`).

## Model

| member | source | states |
|---|---|---|
| Catalog.MatchesSearch | src/context/AppContext.tsx:62-63 | the lower-cased title or description contains the lower-cased term; see `Catalog.EmptySearchMatchesAll` and `Catalog.SearchIgnoresTermCase` |
| Catalog.MatchesCategory | src/context/AppContext.tsx:65 | "all" or the game's own category; see `Catalog.CategoryOnly` |
| Catalog.MatchesGenre | src/context/AppContext.tsx:66 | no genre selected, or some selected genre among the game's genres; see `Catalog.FilteredMembership` |
| Catalog.MatchesPopularity | src/context/AppContext.tsx:67-69 | "all", or "popular" with a popular game, or "new" with a new game; see `Catalog.FilteredMembership` |
| Catalog.MatchesRating | src/context/AppContext.tsx:70 | the rating reaches the minimum; see `Catalog.RatingThresholdInclusive` |
| Catalog.Keep | src/context/AppContext.tsx:72 | the conjunction of the five checks; see `Catalog.FilteredMembership` and `Catalog.FilterOrderIrrelevant` |
| Catalog.FilterGames | src/context/AppContext.tsx:61-73 | `filteredGames`; its meaning is stated by `Catalog.FilteredMembership`, `Catalog.FilteredCount` and `Catalog.FilteredIsSubsequence` |
| Catalog.FilteredCount | src/context/AppContext.tsx:61-73 | a game passing the checks is visible as many times as the collection holds it, a failing one never |
| Catalog.FilteredIsSubsequence | src/context/AppContext.tsx:61-73 | the visible list is the collection with some games dropped and the rest in their order |
| Catalog.FilteredMembership | src/context/AppContext.tsx:61-73 | a game is visible exactly when it is in the collection and the search, category, genre, popularity and rating checks all hold |
| Catalog.FilterOrderIrrelevant | src/context/AppContext.tsx:72 | applying the five checks one at a time, in another order, gives the same list as the combined filter |
| Catalog.EmptySearchMatchesAll | src/context/AppContext.tsx:62-63 | the empty search term matches every game |
| Catalog.SearchIgnoresTermCase | src/context/AppContext.tsx:62-63 | lower-casing the term first changes nothing, as the term is compared lower-cased |
| Catalog.DefaultFilterKeepsAll | src/context/AppContext.tsx:46-52 | with the initial criteria and an empty search, every game is visible |
| Types.DefaultFilter | src/context/AppContext.tsx:46-52 | the criteria the provider starts with and `clearFilters` restores (GamesPage.tsx 52-59): category "all", no genre, popularity and size "all", minimum rating 0; that they hide nothing is stated by `Catalog.DefaultFilterKeepsAll` |
| Catalog.CategoryOnly | src/context/AppContext.tsx:65 | with only a category other than "all" set, the visible games are exactly those of that category, in order |
| Catalog.RatingThresholdInclusive | src/context/AppContext.tsx:70 | every visible game reaches the minimum rating, and a game exactly at the minimum is kept when its other checks pass |
| Catalog.SizeIgnored | src/context/AppContext.tsx:61-73 | the size criterion is never consulted: changing it leaves the visible list unchanged |
| Catalog.FilterGamesIdempotent | src/context/AppContext.tsx:61-73 | filtering the visible list again changes nothing |
| Catalog.AppState.constructor | src/context/AppContext.tsx:44-58 | the provider starts with empty search, default criteria, no user, no selected game and all three windows closed |
| Catalog.AppState.FilteredGames | src/context/AppContext.tsx:61 | the context's `filteredGames`: a game is in it exactly when it is in the collection and passes the current search and criteria |
| Catalog.AppState.SetSearchTerm | src/context/AppContext.tsx:45 | replaces the search term and nothing else |
| Catalog.AppState.SetFilters | src/context/AppContext.tsx:46-52 | replaces the criteria and nothing else |
| Catalog.AppState.SetUser | src/context/AppContext.tsx:54 | replaces the user and nothing else |
| Catalog.AppState.SetSelectedGame | src/context/AppContext.tsx:55 | replaces the selected game and nothing else |
| Catalog.AppState.SetShowGameModal | src/context/AppContext.tsx:56 | sets the game-window flag and nothing else |
| Catalog.AppState.SetShowLoginModal | src/context/AppContext.tsx:57 | sets the login-window flag and nothing else |
| Catalog.AppState.SetShowRegisterModal | src/context/AppContext.tsx:58 | sets the register-window flag and nothing else |
| Text.ToLower | src/context/AppContext.tsx:62-63 | `toLowerCase` on ASCII letters; what it means is stated by `Text.ToLowerNoCapitals`, `Text.ToLowerFixed` and `Text.ToLowerIdempotent` |
| Text.ToLowerIdempotent | src/context/AppContext.tsx:62-63 | lower-casing an already lower-cased text changes nothing |
| Text.ToLowerNoCapitals | src/context/AppContext.tsx:62-63 | the result holds no capital letter and agrees with the input wherever the input has none |
| Text.ToLowerFixed | src/context/AppContext.tsx:62-63 | a text is left unchanged exactly when it holds no capital letter |
| Text.Includes | src/context/AppContext.tsx:62-63 | `includes` holds exactly when the needle occurs at some position of the text |
| Seqs.Filter | src/context/AppContext.tsx:61 | `filter` keeps exactly the elements that satisfy the test, and every kept element satisfies it; multiplicities are stated by `Seqs.FilterCount` |
| Seqs.FilterCount | src/context/AppContext.tsx:61 | each element satisfying the test is kept as many times as it occurs, and no other element is kept |
| Seqs.Take | src/pages/HomePage.tsx:15 | `slice(0, n)` is the first `min(n, length)` elements (also at HomePage.tsx 18) |
| Text.Trim | src/pages/ContactPage.tsx:42-64 | `trim` gives a string no longer than its input that neither starts nor ends with white space |
| Text.IsSpace | src/pages/ContactPage.tsx:42-64 | the characters `trim` strips and `\s` matches: the ECMAScript WhiteSpace and LineTerminator code points; its use is stated by `Text.TrimIsSlice` and `Auth.ValidateEmailShape` |
| Text.TrimIsSlice | src/pages/ContactPage.tsx:42-64 | the trimmed text is a slice of the input, and everything cut off on either side is white space |
| Text.TrimNoSpace | src/pages/ContactPage.tsx:48-52 | a string without white space trims to itself |
| Text.BeforeFirst | src/components/Auth/AuthModals.tsx:55 | `split('@')[0]` is the prefix before the first `@`, holds no `@`, and is followed by `@` when shorter than the text |
| Text.DecimalString | src/components/Games/GameCard.tsx:25 | `toString` of a natural is a non-empty digit string, without a leading zero, whose decimal value is the number |
| Text.CompareStrings | src/pages/GamesPage.tsx:30 | the comparison is negative, zero or positive, and zero exactly for equal strings |
| Text.CompareStringsFlip | src/pages/GamesPage.tsx:30 | swapping the arguments flips the sign of the comparison |
| Text.CompareStringsTransitive | src/pages/GamesPage.tsx:30 | the ordering the comparison defines is transitive |
| StableSort.SortBy | src/pages/GamesPage.tsx:20-34 | the sorted copy is a permutation of the list: same elements, same multiplicities, same length |
| StableSort.SortBySorted | src/pages/GamesPage.tsx:20-34 | every earlier element of the sorted copy is at or before every later one under the comparator |
| StableSort.SortStable | src/pages/GamesPage.tsx:21-30 | for every element, the elements the comparator ties with it appear in the sorted copy in their input order |
| StableSort.SortUnique | src/pages/GamesPage.tsx:21-30 | any list that is sorted and keeps every tie class in input order equals the sorted copy |
| StableSort.SortedPrefixDominates | src/pages/HomePage.tsx:16-18 | every element in a prefix of the sorted copy comes at or before every input element left outside that prefix |
| GameOrder.CompareFlip | src/pages/GamesPage.tsx:23-30 | each key's comparator is antisymmetric in sign |
| GameOrder.CompareTransitive | src/pages/GamesPage.tsx:23-30 | each key's comparator is transitive |
| GameOrder.ComparatorConsistent | src/pages/GamesPage.tsx:23-30 | each of the four comparators is consistent, so the stable sort is well defined for it |
| GameOrder.Compare | src/pages/GamesPage.tsx:21-30 | the four comparators of the `switch`; see `GameOrder.CompareFlip`, `GameOrder.CompareTransitive` and `GameOrder.SortGamesOrdered` |
| GameOrder.SortGames | src/pages/GamesPage.tsx:19-34 | `sortedGames`, the stable sort of a copy; its meaning is stated by `GameOrder.SortGamesOrdered`, `GameOrder.SortGamesStable` and `GameOrder.SortGamesUnique` |
| GameOrder.SortGamesOrdered | src/pages/GamesPage.tsx:19-34 | the sorted list is a permutation of the visible list: newest date first, most downloads first, best rating first, or title ascending |
| GameOrder.SortGamesStable | src/pages/GamesPage.tsx:21-30 | games with equal keys keep their order from the visible list |
| GameOrder.SortGamesUnique | src/pages/GamesPage.tsx:20-34 | any ordered and stable arrangement of the visible list is the sorted list |
| Pagination.TotalPages | src/pages/GamesPage.tsx:37 | `Math.ceil(n / 12)`: the least page count whose pages hold `n` games, and 0 exactly for `n = 0` |
| Pagination.ShowPagination | src/pages/GamesPage.tsx:292 | the bar is drawn for more than one page |
| Pagination.ShowPaginationIff | src/pages/GamesPage.tsx:292 | there is more than one page exactly when the list holds more than twelve games |
| Pagination.PrevEnabled | src/pages/GamesPage.tsx:300 | "Anterior" is enabled on every page but page 1; where it leads is stated by `Pagination.NavigationStaysInRange` |
| Pagination.NextEnabled | src/pages/GamesPage.tsx:339 | "Siguiente" is enabled on every page but the last; where it leads is stated by `Pagination.NavigationStaysInRange` and `Pagination.StalePageDrifts` |
| Pagination.Position | src/pages/GamesPage.tsx:38-40 | how `slice` turns an argument into a position; what that means for a slice is stated by `Pagination.SliceFromEnd` and `Pagination.SliceElements` |
| Pagination.Slice | src/pages/GamesPage.tsx:40 | `slice(start, end)`; stated by `Pagination.SliceElements`, `Pagination.SliceConcat` and `Pagination.SliceFromEnd` |
| Pagination.SliceElements | src/pages/GamesPage.tsx:40 | a slice is as long as the gap between its two positions (or empty), and holds the list's elements from the start position on, in order |
| Pagination.SliceConcat | src/pages/GamesPage.tsx:40 | for `a <= b <= c` from 0 on, the slices `a..b` and `b..c` joined are the slice `a..c` |
| Pagination.SliceFromEnd | src/pages/GamesPage.tsx:40 | a negative start `-k` counts from the end: `slice(-k)` is the last `k` elements, or the whole list when `k` exceeds its length |
| Pagination.PageItems | src/pages/GamesPage.tsx:38-40 | `currentGames`; its contents are stated by `Pagination.PageItemsContents`, `Pagination.PageItemsAtMostTwelve` and `Pagination.PagesCoverAll` |
| Pagination.PageItemsContents | src/pages/GamesPage.tsx:38-40 | from page 1 on, a page holds the games from `(page - 1) * 12`, in order, up to twelve or up to the end of the list |
| Pagination.PageItemsAtMostTwelve | src/pages/GamesPage.tsx:38-40 | whatever the page number, a page holds at most twelve games |
| Pagination.PageBeyondLastEmpty | src/pages/GamesPage.tsx:38-40 | a page number past the last page gives an empty page, with no clamping |
| Pagination.LastPageNonEmpty | src/pages/GamesPage.tsx:37-40 | the last page of a non-empty list holds one to twelve games |
| Pagination.PagesUpToPrefix | src/pages/GamesPage.tsx:37-40 | pages 1 to `k` together are the first `12 * k` games, or the whole list |
| Pagination.PagesCoverAll | src/pages/GamesPage.tsx:37-40 | pages 1 to `totalPages` concatenate back to the sorted list |
| Pagination.PageWindow | src/pages/GamesPage.tsx:309-319 | the `min(totalPages, 7)` button numbers; what they are is stated by `Pagination.PageWindowRange` and `Pagination.PageWindowHasCurrent` |
| Pagination.ButtonPage | src/pages/GamesPage.tsx:311-319 | the four-way rule for the `i`-th button; see `Pagination.PageWindowRange` |
| Pagination.PageWindowRange | src/pages/GamesPage.tsx:309-319 | the button numbers are consecutive and all lie in `[1, totalPages]`, whatever the current page is |
| Pagination.PageWindowHasCurrent | src/pages/GamesPage.tsx:309-319 | when `1 <= currentPage <= totalPages`, the current page is among the buttons |
| Pagination.NavigationStaysInRange | src/pages/GamesPage.tsx:298-339 | from an existing page, the enabled arrows and every button lead to an existing page |
| Pagination.StalePageDrifts | src/pages/GamesPage.tsx:337-339 | on a page past the end, the page is empty and "Siguiente" stays enabled, moving further out |
| GamesPage.ApplyUpdate | src/pages/GamesPage.tsx:45-46 | `{ ...filters, [key]: value }`; that only the named criterion changes is stated by `GamesPage.ApplyUpdateLocal` |
| GamesPage.ApplyUpdateLocal | src/pages/GamesPage.tsx:45-46 | an update leaves the other criteria, and the size criterion, unchanged |
| GamesPage.ToggledGenres | src/pages/GamesPage.tsx:138-143 | checking appends the genre; unchecking removes every copy and keeps each other genre |
| GamesPage.ToggleRoundTrip | src/pages/GamesPage.tsx:138-143 | checking an unselected genre and unchecking it again restores the list exactly |
| GamesPage.Page.constructor | src/pages/GamesPage.tsx:11-15 | the page starts on page 1, grid view, newest first, panel hidden, not loading |
| GamesPage.Page.CurrentGames | src/pages/GamesPage.tsx:40 | the shown games are at most twelve, each in the collection and passing the search and all criteria |
| GamesPage.Page.CurrentGamesAreThePage | src/pages/GamesPage.tsx:38-40 | on any page the handlers reach (numbered from 1), the shown games are the sorted list's run from `(page - 1) * 12`: twelve games, or what is left of the list from there, or none past its end |
| GamesPage.Page.TotalPages | src/pages/GamesPage.tsx:37 | the page count of the visible list, since sorting keeps its length |
| GamesPage.Page.PaginationVisible | src/pages/GamesPage.tsx:292 | the page bar is drawn exactly when more than twelve games are visible |
| GamesPage.Page.SortedGames | src/pages/GamesPage.tsx:19-34 | the visible list in the chosen order; see `GameOrder.SortGamesOrdered` |
| GamesPage.Page.PageButtons | src/pages/GamesPage.tsx:309-319 | the page buttons of the current state; see `Pagination.PageWindowRange` |
| GamesPage.Page.HandleFilterChange | src/pages/GamesPage.tsx:45-50 | the criteria take the update, the page returns to 1 and loading is shown; nothing else changes |
| GamesPage.Page.LoadingDelayElapsed | src/pages/GamesPage.tsx:49 | the 500 ms timer clears the loading flag |
| GamesPage.Page.ToggleGenre | src/pages/GamesPage.tsx:138-143 | the genre list becomes the toggled list, through the filter-change handler |
| GamesPage.Page.ClearFilters | src/pages/GamesPage.tsx:52-61 | the criteria become the provider's initial criteria and the page returns to 1; the loading flag is untouched |
| GamesPage.Page.HandlePageChange | src/pages/GamesPage.tsx:63-66 | the page becomes the requested number, unclamped |
| GamesPage.Page.ClickPrev | src/pages/GamesPage.tsx:298-300 | "Anterior", only when the bar is drawn and the arrow is enabled, moves one page back |
| GamesPage.Page.ClickNext | src/pages/GamesPage.tsx:337-339 | "Siguiente", only when the bar is drawn and the arrow is enabled, moves one page on |
| GamesPage.Page.ClickPageButton | src/pages/GamesPage.tsx:309-324 | a page button moves to the number it shows, which is an existing page |
| GamesPage.Page.SetSortBy | src/pages/GamesPage.tsx:225 | changes the key only; the current page is kept |
| GamesPage.Page.SetViewMode | src/pages/GamesPage.tsx:237-243 | sets the view mode only |
| GamesPage.Page.ToggleFilters | src/pages/GamesPage.tsx:207 | flips the panel flag only |
| Auth.ValidateEmail | src/components/Auth/AuthModals.tsx:29-31 | the scan accepts exactly the strings the regular expression matches in full |
| Auth.ValidateEmailShape | src/components/Auth/AuthModals.tsx:29-31 | the pattern accepts exactly: one `@`, no white space, a non-empty local part, and a `.` in the domain that is neither its first nor its last character |
| Auth.PatternSplit | src/components/Auth/AuthModals.tsx:30 | one way `^[^\s@]+@[^\s@]+\.[^\s@]+$` matches: the three runs of characters other than white space and `@`, split by the `@` and a `.` |
| Auth.MatchesEmailPattern | src/components/Auth/AuthModals.tsx:30 | the regular expression matches the whole string (also at ContactPage.tsx 50); this is the reference definition that `Auth.ValidateEmail` is proved to decide |
| Auth.UsernameIsLocalPart | src/components/Auth/AuthModals.tsx:55 | for a valid address, the derived user name is the non-empty local part, the address being that name, `@` and the domain |
| Auth.EmailCheck | src/components/Auth/AuthModals.tsx:37-41 | no message exactly for a valid address; the "required" message exactly for an empty one |
| Auth.PasswordCheck | src/components/Auth/AuthModals.tsx:43-47 | no message exactly from six characters on; the "required" message exactly for an empty password |
| Auth.UsernameCheck | src/components/Auth/AuthModals.tsx:68-72 | no message exactly from three characters on; the "required" message exactly for an empty name |
| Auth.ErrorMapSteps | src/components/Auth/AuthModals.tsx:66-92 | recording the checks' messages one after the other builds the record with one entry per failing field |
| Auth.LoginErrors | src/components/Auth/AuthModals.tsx:35-47 | only `email` and `password` keys; `email` exactly for an empty or invalid address, `password` exactly under six characters, each with its message |
| Auth.RegisterErrors | src/components/Auth/AuthModals.tsx:66-92 | the entry and message rules for all five fields; the confirmation is compared whatever the password's own state |
| Auth.LoginAcceptsExactly | src/components/Auth/AuthModals.tsx:37-51 | a login has no errors exactly for a valid address and a password of at least six characters |
| Auth.RegisterAcceptsExactly | src/components/Auth/AuthModals.tsx:68-96 | a registration has no errors exactly when all five fields pass |
| Auth.AddUsernameError | src/components/Auth/AuthModals.tsx:68-72 | the username block records the username's message when there is one |
| Auth.AddEmailError | src/components/Auth/AuthModals.tsx:37-41 | the e-mail block records the e-mail's message when there is one |
| Auth.AddPasswordError | src/components/Auth/AuthModals.tsx:43-47 | the password block records the password's message when there is one |
| Auth.CollectLoginErrors | src/components/Auth/AuthModals.tsx:35-47 | the local `newErrors`, filled step by step, is the login error record |
| Auth.CollectRegisterErrors | src/components/Auth/AuthModals.tsx:66-92 | the local `newErrors`, filled step by step, is the registration error record |
| Auth.LoginUser | src/components/Auth/AuthModals.tsx:53-58 | the logged-in user has id "1", the address, the logged-in flag, no avatar, and as name the text before the first `@` |
| Auth.RegisterUser | src/components/Auth/AuthModals.tsx:98-103 | the registered user; its relation to the logged-in user is stated by `Auth.RegisterLikeLogin` |
| Auth.RegisterLikeLogin | src/components/Auth/AuthModals.tsx:53-58 | a registered user and a user logged in with the same address are the same record except for the name, which is the form's name rather than the text before the `@` |
| Auth.AuthModals.constructor | src/components/Auth/AuthModals.tsx:17-27 | both forms empty, password hidden, no errors |
| Auth.AuthModals.HandleLogin | src/components/Auth/AuthModals.tsx:33-62 | the errors are replaced by the login record; with none, the user is set, the window closed and the form reset; otherwise all three stay as they were |
| Auth.AuthModals.HandleRegister | src/components/Auth/AuthModals.tsx:64-113 | the same shape for the registration, closing the register window and resetting all five fields |
| Auth.AuthModals.SwitchToRegister | src/components/Auth/AuthModals.tsx:115-119 | only the register window is open afterwards, and the errors are emptied |
| Auth.AuthModals.SwitchToLogin | src/components/Auth/AuthModals.tsx:121-125 | only the login window is open afterwards, and the errors are emptied |
| Auth.AuthModals.CloseLogin | src/components/Auth/AuthModals.tsx:137 | the overlay or close button closes the login window only |
| Auth.AuthModals.CloseRegister | src/components/Auth/AuthModals.tsx:231 | the overlay or close button closes the register window only |
| Auth.AuthModals.TogglePassword | src/components/Auth/AuthModals.tsx:179 | the eye button flips the password visibility only |
| Auth.AuthModals.SetLoginForm | src/components/Auth/AuthModals.tsx:163-191 | an input change replaces the login form only |
| Auth.AuthModals.SetRegisterForm | src/components/Auth/AuthModals.tsx:257-294 | an input change replaces the registration form only |
| Contact.LengthCheck | src/pages/ContactPage.tsx:42-46 | no message exactly when the trimmed value reaches the minimum; "required" for a blank value, "too short" for a short non-blank one |
| Contact.ContactEmailCheck | src/pages/ContactPage.tsx:48-52 | the e-mail's message; stated field by field by `Contact.ContactErrorsAt` |
| Contact.ContactErrors | src/pages/ContactPage.tsx:39-64 | the record `validateForm` builds; stated by `Contact.ContactErrorsAt` and `Contact.ContactAcceptsExactly` |
| Contact.ErrorMapAt | src/pages/ContactPage.tsx:39-64 | a field is in the record exactly when its check gave a message, and that message is its value |
| Contact.ErrorMapEmpty | src/pages/ContactPage.tsx:66-67 | the record is empty exactly when no check gave a message |
| Contact.ErrorMapSteps | src/pages/ContactPage.tsx:39-64 | recording the four checks one after the other builds the record |
| Contact.ContactErrorsAt | src/pages/ContactPage.tsx:42-64 | field by field: an entry exactly for a short trimmed value (or a blank or non-matching address), with the "required" message for a blank value and the other one otherwise |
| Contact.ContactAcceptsExactly | src/pages/ContactPage.tsx:39-67 | the form passes exactly when the trimmed lengths reach 2, 5 and 10 and the untrimmed address matches the pattern |
| Contact.ValidEmailTrimsToItself | src/pages/ContactPage.tsx:48-52 | an address the pattern accepts is non-empty and unchanged by trimming |
| Contact.PaddedEmailRejected | src/pages/ContactPage.tsx:50 | an address with white space at either end is rejected, since the pattern sees the untrimmed text |
| Contact.AddLengthError | src/pages/ContactPage.tsx:42-64 | a text field's block records that field's message when there is one |
| Contact.AddEmailError | src/pages/ContactPage.tsx:48-52 | given the outcomes of the blank test and the pattern test, the block records "required" for a blank address, "invalid" for one failing the pattern, and nothing otherwise |
| Contact.CollectErrors | src/pages/ContactPage.tsx:39-65 | the local `newErrors`, filled step by step, is the contact error record |
| Contact.SetField | src/pages/ContactPage.tsx:91 | `{ ...prev, [field]: value }`; that the other three fields are kept is stated by `Contact.SetFieldOthers` |
| Contact.SetFieldOthers | src/pages/ContactPage.tsx:91 | the other three fields are unchanged |
| Contact.HasError | src/pages/ContactPage.tsx:92 | `errors[field]` is truthy: the key is present and its message is not empty; used by `Contact.ContactPage.HandleInputChange` |
| Contact.ContactPage.constructor | src/pages/ContactPage.tsx:8-16 | empty form, no errors, neither sending nor sent |
| Contact.ContactPage.ValidateForm | src/pages/ContactPage.tsx:39-68 | the errors are replaced by the record, and the result is true exactly when the record is empty |
| Contact.ContactPage.HandleSubmit | src/pages/ContactPage.tsx:70-75 | on the enabled form, the errors are replaced; sending starts exactly when there are none, so a failing form changes only the errors |
| Contact.ContactPage.ApiDelayElapsed | src/pages/ContactPage.tsx:78-81 | after the request delay, sending stops and the confirmation shows |
| Contact.ContactPage.ResetDelayElapsed | src/pages/ContactPage.tsx:84-87 | after the confirmation delay, the four fields are cleared and the form returns |
| Contact.ContactPage.HandleInputChange | src/pages/ContactPage.tsx:90-95 | one field takes the value; its error is blanked only when it was non-empty; all else is kept |
| GameCard.FormatDownloads | src/components/Games/GameCard.tsx:22-26 | millions exactly from 1,000,000, thousands exactly from 1000 below that, the counter's decimal text below 1000 (the detail window's copy, src/components/Games/GameModal.tsx lines 25 to 29, is the same code) |
| GameCard.TierMonotonic | src/components/Games/GameCard.tsx:22-26 | more downloads never give a lower tier |
| GameCard.ScaledAmountRange | src/components/Games/GameCard.tsx:23-24 | the exact quotient behind a scaled label is at least one unit, and below a thousand units for a thousands label (the printed, rounded label can still read 1000.0K) |
| GameCard.PlainRoundTrip | src/components/Games/GameCard.tsx:25 | below 1000, the label is at most three digits and reads back as the counter |
| GameCard.CatalogRangeShowsThousands | src/components/Games/GameCard.tsx:24 | counters in the range the catalog is generated in (1000 to 999999) always show in thousands |
| GameCard.PriceLabel | src/components/Games/GameCard.tsx:82 | the badge is "Gratis" exactly for a free game, and otherwise starts with `$` |
| GameCard.PriceLabelRoundTrip | src/components/Games/GameCard.tsx:82 | after the `$`, a paid game's badge is digits, without a leading zero, that read back as the price |
| GameCard.Card.constructor | src/components/Games/GameCard.tsx:14 | the card shows the game it is given |
| GameCard.Card.HandleViewDetails | src/components/Games/GameCard.tsx:17-20 | the card's game becomes the selected game and its window opens; nothing else changes |
| GameModal.JsRem | src/components/Games/GameModal.tsx:32-36 | the host `%`: the remainder left by the quotient truncated toward zero, taking the sign of `a`, and the mathematical remainder on non-negative operands |
| GameModal.NextIndex | src/components/Games/GameModal.tsx:31-33 | "next" stays in `[0, n)`: the following index, or 0 after the last one |
| GameModal.PrevIndex | src/components/Games/GameModal.tsx:35-37 | "previous" stays in `[0, n)`: the preceding index, or the last one before 0 |
| GameModal.PrevUndoesNext | src/components/Games/GameModal.tsx:31-37 | on a shown index, "previous" undoes "next" and "next" undoes "previous" |
| GameModal.NextTimesMoves | src/components/Games/GameModal.tsx:31-33 | short of the end, `k` presses of "next" move `k` places |
| GameModal.NextTimesCompose | src/components/Games/GameModal.tsx:31-33 | `a` presses and then `b` presses equal `a + b` presses |
| GameModal.FullCircle | src/components/Games/GameModal.tsx:31-33 | `n` presses of "next" return to the starting screenshot |
| GameModal.StaleIndexRecovers | src/components/Games/GameModal.tsx:31-37 | an index left past the screenshots is brought back among them by either arrow |
| GameModal.BuyLabel | src/components/Games/GameModal.tsx:161 | the big button's text; stated by `GameModal.BuyLabelRoundTrip` |
| GameModal.BuyLabelRoundTrip | src/components/Games/GameModal.tsx:161 | the text is "Descargar Gratis" exactly for a free game; a paid game's is "Comprar por $" followed by digits that read back as the price |
| GameModal.Window.constructor | src/components/Games/GameModal.tsx:11-12 | the window opens on the description tab and the first screenshot |
| GameModal.Window.Visible | src/components/Games/GameModal.tsx:14 | nothing is drawn without a selected game, and only the shell while the window flag (line 50) is off |
| GameModal.Window.NextScreenshot | src/components/Games/GameModal.tsx:31-33 | the arrow, drawn only for more than one screenshot, moves to the next index, which is a shown one |
| GameModal.Window.PrevScreenshot | src/components/Games/GameModal.tsx:35-37 | the arrow, drawn only for more than one screenshot, moves to the previous index, which is a shown one |
| GameModal.Window.SelectScreenshot | src/components/Games/GameModal.tsx:124 | a dot selects its own screenshot |
| GameModal.Window.SetActiveTab | src/components/Games/GameModal.tsx:173 | a tab button selects its tab |
| GameModal.Window.HandleDownload | src/components/Games/GameModal.tsx:39-46 | with no user, only the login-window flag is set; with a user, the download starts and no state changes |
| GameModal.Window.ReviewsLogin | src/components/Games/GameModal.tsx:286-289 | for a visitor on the reviews tab, the game window closes and the login window opens |
| GameModal.Window.Close | src/components/Games/GameModal.tsx:56 | the backdrop or close button closes the window; the game stays selected |
| HomePage.FirstFeatured | src/pages/HomePage.tsx:14 | `find` stops at the first featured game: none before it is featured |
| HomePage.FeaturedGame | src/pages/HomePage.tsx:14 | a game of the catalog, featured whenever any game is; nothing only for an empty catalog |
| HomePage.FeaturedIsFirstFeatured | src/pages/HomePage.tsx:14 | the banner shows the first featured game |
| HomePage.FeaturedFallsBack | src/pages/HomePage.tsx:14 | with no featured game, the banner shows the first game |
| HomePage.NewGamesProperties | src/pages/HomePage.tsx:15 | the first six new games of the catalog in catalog order, or all of them when there are fewer |
| HomePage.NewGames | src/pages/HomePage.tsx:15 | `filter(...).slice(0, 6)`; stated by `HomePage.NewGamesProperties` |
| HomePage.IsNewGame | src/pages/HomePage.tsx:15 | the `game.new` test of the new-games row; its use is stated by `HomePage.NewGamesProperties` |
| HomePage.SortedByDownloads | src/pages/HomePage.tsx:16-17 | the sorted copy is a permutation of the catalog, sorted by downloads |
| HomePage.TopGamesOrdered | src/pages/HomePage.tsx:16-18 | `min(5, n)` games of the catalog, most downloaded first |
| HomePage.TopGamesStable | src/pages/HomePage.tsx:16-18 | among the top games, those tied on downloads with any game are the first of their tie class in catalog order |
| HomePage.TopGamesDominate | src/pages/HomePage.tsx:16-18 | every top game has at least as many downloads as every game left out |
| HomePage.TopGames | src/pages/HomePage.tsx:16-18 | the five most downloaded games; stated by `HomePage.TopGamesOrdered`, `HomePage.TopGamesStable` and `HomePage.TopGamesDominate` |
| HomePage.Home.constructor | src/pages/HomePage.tsx:11 | the page reads the shared state |
| HomePage.Home.HandleViewGame | src/pages/HomePage.tsx:20-23 | the game becomes the selected game and its window opens; nothing else changes |

## Left out

- Rendering, animation, styling and routing are left out. They are presentation only.
- The header's search box is left out. It only passes its text to `Catalog.AppState.SetSearchTerm`.
- The size criterion is in the model. No control of the page sets it, and the filter never reads it.
- Generation of the mock catalog and reviews (`faker`, `Math.random`) is left out. These are randomness through a foreign library. The review records and the reviews list are not modelled.
- GameCard.FormatDownloads does not give the digits `toFixed(1)` prints for the scaled tiers. It returns the exact quotient as counter and unit, because the rounding depends on binary floating point. So it does not capture that `toFixed(1)` rounds counters from 999,950 to 999,999 up to "1000.0K", a thousands label of a thousand.
- Text.ToLower maps ASCII letters only. Unicode case mapping is left out.
- Text.CompareStrings compares code points. It does not model locale-aware collation.
- GameOrder.Compare orders release dates by comparing their ISO strings, in place of subtracting `Date` timestamps. Parsing of invalid dates (which gives `NaN`) is left out.
- Text.Trim counts characters, not UTF-16 code units. Lengths of text outside the Basic Multilingual Plane differ from the source's `length`.
- Auth.PasswordCheck counts characters, not UTF-16 code units: three astral-plane emoji are six code units, so the source's `password.length < 6` test lets them through, while the model counts three characters and rejects them.
- Auth.UsernameCheck counts characters, not UTF-16 code units, so a name of two astral-plane characters passes the source's three-character bound but not the model's.
- Contact.LengthCheck counts the trimmed value's characters, not its UTF-16 code units, so astral-plane text reaches the source's minimums sooner than the model's.
- Ratings are tenths held as naturals. Prices are whole dollars. Non-integer values are not modelled.
- Timers are split into separate steps: `GamesPage.Page.LoadingDelayElapsed`, `Contact.ContactPage.ApiDelayElapsed` and `Contact.ContactPage.ResetDelayElapsed`. Each event of the source is one step, and no interleaving of a timer with other events is modelled.
- `window.scrollTo` and `alert` are host effects. The download's alert is the `DownloadStarted` outcome.
- The star display of `Rating` rounds float ratings. It is presentation only and is left out.
- The remember-me checkbox is kept in the login form. Nothing reads it.
